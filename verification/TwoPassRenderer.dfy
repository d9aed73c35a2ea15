/**
 * The command-line renderer (renderWorkflow.ts): a first pass replaces quoted
 * placeholders by typed JSON, a second pass replaces what is still a placeholder
 * by escaped text. `TwoPassesAreOne` says when this is simultaneous substitution.
 */
module TwoPassRenderer {
  import opened Wrappers
  import opened JsonText
  import opened JsonValues
  import opened Placeholders

  type Variables = map<Text, Json>

  /** `toSafeString`: objects are stringified first, everything else is printed. */
  function SafeString(v: Json): Text
    requires !v.Null?
  {
    match v
    case Bool(b) => Escape(Stringify(v))
    case Num(digits) => Escape(digits)
    case String(text) => Escape(text)
    case Arr(_) => Escape(Stringify(v))
    case Obj(_) => Escape(Stringify(v))
  }

  /** Inside a literal a safe string says the text of a string, and for any other value a text from which
      the value reads back. */
  lemma {:induction false} SafeStringReads(v: Json, rest: Text) returns (said: Text)
    requires !v.Null?
    ensures ReadBody(SafeString(v) + ([QUOTE] + rest)) == Some(Body(said, rest))
    ensures v.String? ==> said == v.text
    ensures !v.String? ==> ReadValue(said) == Some(ValueRead(v, []))
  {
    var tail := [QUOTE] + rest;
    said := if v.String? then v.text else Stringify(v);
    EscapeRoundTrip(said, tail);
    assert tail[1..] == rest && said + [] == said;
    StringifyRoundTrip(v, []);
    assert Stringify(v) + [] == Stringify(v);
  }

  // ---------- The two passes and the single pass ----------

  /** The quoted pattern `"{{\s*key\s*}}"` at the start of `s`. */
  function QuotedMatchAt(s: Text): (m: Option<Match>)
    ensures m.Some? ==> 6 <= m.value.len <= |s| && s[0] == QUOTE
  {
    if s == [] || s[0] != QUOTE then None
    else
      var m := MatchAt(s[1..]);
      if m.Some? && 1 + m.value.len < |s| && s[1 + m.value.len] == QUOTE
      then Some(Match(m.value.key, m.value.len + 2))
      else None
  }

  predicate HasValue(key: Text, vars: Variables) {
    key in vars && !vars[key].Null?
  }

  function App(t: Text, r: Option<Text>): Option<Text> {
    if r.Some? then Some(t + r.value) else None
  }

  /** Typed replacement of quoted placeholders; `None` when a value is null or undefined. */
  function FirstPass(s: Text, vars: Variables): Option<Text>
    decreases |s|
  {
    if s == [] then Some([])
    else
      var q := QuotedMatchAt(s);
      if q.None? then App([s[0]], FirstPass(s[1..], vars))
      else if !HasValue(q.value.key, vars) then None
      else App(Stringify(vars[q.value.key]), FirstPass(s[q.value.len..], vars))
  }

  /** Replacement of the placeholders found in the output of the first pass. */
  function SecondPass(w: Text, vars: Variables): Option<Text>
    decreases |w|
  {
    if w == [] then Some([])
    else
      var m := MatchAt(w);
      if m.None? then App([w[0]], SecondPass(w[1..], vars))
      else if !HasValue(m.value.key, vars) then None
      else App(SafeString(vars[m.value.key]), SecondPass(w[m.value.len..], vars))
  }

  datatype Outcome = Missing(keys: seq<Text>) | NullValue | Rendered(text: Text)

  function TwoPasses(s: Text, vars: Variables): Option<Text> {
    var w := FirstPass(s, vars);
    if w.None? then None else SecondPass(w.value, vars)
  }

  /** `renderTemplate`: the check for missing keys, then both passes. */
  method RenderTemplate(template: Text, vars: Variables) returns (out: Outcome)
    ensures out.Missing? <==> exists k :: k in Holes(template) && k !in vars
    ensures out.Missing? ==> forall k :: k in out.keys <==> k in Holes(template) && k !in vars
    ensures !out.Missing? ==>
      out == (match TwoPasses(template, vars) case Some(t) => Rendered(t) case None => NullValue)
  {
    var keys := CollectPlaceholders(template);
    var missing: seq<Text> := [];
    for i := 0 to |keys|
      invariant forall k :: k in missing <==> k in keys[..i] && k !in vars
    {
      assert keys[..i + 1] == keys[..i] + [keys[i]];
      if keys[i] !in vars {
        missing := missing + [keys[i]];
      }
    }
    assert keys[..|keys|] == keys;
    if missing != [] {
      assert missing[0] in missing;
      return Missing(missing);
    }
    var typed := FirstPass(template, vars);
    if typed.None? {
      return NullValue;
    }
    var text := SecondPass(typed.value, vars);
    out := if text.Some? then Rendered(text.value) else NullValue;
  }

  /** Simultaneous substitution: typed JSON for quoted placeholders, escaped text for the others. */
  function OnePass(s: Text, vars: Variables): Option<Text>
    decreases |s|
  {
    if s == [] then Some([])
    else
      var q := QuotedMatchAt(s);
      var m := MatchAt(s);
      if q.Some? then
        if !HasValue(q.value.key, vars) then None
        else App(Stringify(vars[q.value.key]), OnePass(s[q.value.len..], vars))
      else if m.Some? then
        if !HasValue(m.value.key, vars) then None
        else App(SafeString(vars[m.value.key]), OnePass(s[m.value.len..], vars))
      else App([s[0]], OnePass(s[1..], vars))
  }

  // ---------- Where a match can begin in the JSON of a value ----------

  predicate NoDouble(t: Text) {
    forall i :: 0 <= i < |t| - 1 ==> t[i] != OPEN || t[i + 1] != OPEN
  }

  /** No string or member name anywhere in the value contains `{{`. */
  predicate HoldsNoOpening(v: Json)
    decreases v
  {
    match v
    case String(text) => NoDouble(text)
    case Arr(items) => forall x :: x in items ==> HoldsNoOpening(x)
    case Obj(members) => forall m :: m in members ==> NoDouble(m.name) && HoldsNoOpening(m.value)
    case _ => true
  }

  /** Text in which no placeholder can begin, whatever follows. */
  predicate Inert(t: Text) {
    NoDouble(t) && (t != [] ==> t[|t| - 1] != OPEN)
  }

  lemma {:induction false} InertConcat(a: Text, b: Text)
    requires Inert(a) && Inert(b)
    ensures Inert(a + b)
  {
    var t := a + b;
    forall i | 0 <= i < |t| - 1
      ensures t[i] != OPEN || t[i + 1] != OPEN
    {
      if i + 1 < |a| {
        assert t[i] == a[i] && t[i + 1] == a[i + 1];
      } else if i >= |a| {
        assert t[i] == b[i - |a|] && t[i + 1] == b[i - |a| + 1];
      } else {
        assert t[i] == a[|a| - 1];
      }
    }
  }

  lemma {:induction false} EscapeHeadOpens(s: Text)
    requires s != []
    ensures EscapeHead(s)[0] == OPEN <==> s[0] == OPEN
    ensures forall i :: 0 <= i < |EscapeHead(s)| - 1 ==> EscapeHead(s)[i] != OPEN
    ensures EscapeHead(s)[|EscapeHead(s)| - 1] == OPEN ==> HeadLen(s) == 1 && s[0] == OPEN
  {
  }

  lemma {:induction false} EscapeAddsNoOpening(s: Text)
    requires NoDouble(s)
    ensures NoDouble(Escape(s))
    ensures Escape(s) != [] <==> s != []
    ensures s != [] ==> (Escape(s)[0] == OPEN <==> s[0] == OPEN)
  {
    if s != [] {
      var n, h := HeadLen(s), EscapeHead(s);
      EscapeHeadOpens(s);
      EscapeAddsNoOpening(s[n..]);
      var e, r := Escape(s), Escape(s[n..]);
      forall i | 0 <= i < |e| - 1
        ensures e[i] != OPEN || e[i + 1] != OPEN
      {
        if i >= |h| {
          assert e[i] == r[i - |h|] && e[i + 1] == r[i - |h| + 1];
        } else if i < |h| - 1 {
          assert e[i] == h[i];
        } else {
          assert e[i] == h[|h| - 1] && e[i + 1] == r[0];
        }
      }
    }
  }

  lemma {:induction false} QuotedIsInert(s: Text)
    requires NoDouble(s)
    ensures Inert(Quoted(s))
  {
    EscapeAddsNoOpening(s);
    var e, q := Escape(s), Quoted(s);
    forall i | 0 <= i < |q| - 1
      ensures q[i] != OPEN || q[i + 1] != OPEN
    {
      if 0 < i < |e| {
        assert q[i] == e[i - 1] && q[i + 1] == e[i];
      }
    }
  }

  lemma {:induction false} StringifyIsInert(v: Json)
    requires HoldsNoOpening(v)
    ensures Inert(Stringify(v))
    decreases v, 1
  {
    match v
    case String(text) => QuotedIsInert(text);
    case Arr(items) =>
      ItemsAreInert(items);
      InertConcat([0x5B], JoinItems(items));
      InertConcat([0x5B] + JoinItems(items), [0x5D]);
    case Obj(members) =>
      MembersAreInert(members);
      InertConcat(JoinMembers(members), [CLOSE]);
      var b := JoinMembers(members) + [CLOSE];
      assert Stringify(v) == [OPEN] + b && b[0] != OPEN;
    case _ =>
  }

  lemma {:induction false} ItemsAreInert(items: seq<Json>)
    requires forall x :: x in items ==> HoldsNoOpening(x)
    ensures Inert(JoinItems(items))
    decreases items, 0
  {
    if items != [] {
      StringifyIsInert(items[0]);
      if |items| > 1 {
        ItemsAreInert(items[1..]);
        InertConcat([COMMA], JoinItems(items[1..]));
        InertConcat(Stringify(items[0]), [COMMA] + JoinItems(items[1..]));
      }
    }
  }

  lemma {:induction false} MembersAreInert(members: seq<Member>)
    requires forall m :: m in members ==> NoDouble(m.name) && HoldsNoOpening(m.value)
    ensures Inert(JoinMembers(members))
    decreases members, 0
  {
    if members != [] {
      var name, value := Quoted(members[0].name), Stringify(members[0].value);
      QuotedIsInert(members[0].name);
      StringifyIsInert(members[0].value);
      InertConcat(name, [COLON]);
      InertConcat(name + [COLON], value);
      if |members| > 1 {
        MembersAreInert(members[1..]);
        InertConcat([COMMA], JoinMembers(members[1..]));
        InertConcat(name + [COLON] + value, [COMMA] + JoinMembers(members[1..]));
      }
    }
  }

  /** A unit that no match contains. */
  predicate IsBarrier(u: CodeUnit) {
    !IsSpace(u) && !IsKeyUnit(u) && u != OPEN && u != CLOSE
  }

  /** No match begins from position `p` on, whatever follows the text, and none gets there from before it. */
  predicate SealedAt(t: Text, p: nat) {
    p <= |t| && Inert(t[p..]) && (p == 0 || IsBarrier(t[p - 1]))
  }

  lemma {:induction false} SealedConcat(a: Text, p: nat, b: Text, q: nat) returns (r: nat)
    requires SealedAt(a, p) && SealedAt(b, q)
    ensures SealedAt(a + b, r) && (p > 0 || q > 0 ==> r > 0)
  {
    if q > 0 {
      r := |a| + q;
      assert (a + b)[r..] == b[q..];
    } else {
      r := p;
      assert b[0..] == b;
      InertConcat(a[p..], b);
      assert (a + b)[p..] == a[p..] + b;
    }
  }

  lemma {:induction false} BracedIsSealed(body: Text, p: nat) returns (q: nat)
    requires SealedAt(body, p) && p > 0
    ensures SealedAt([OPEN] + body + [CLOSE], q)
  {
    var r := SealedConcat(body, p, [CLOSE], 0);
    q := r + 1;
    assert ([OPEN] + body + [CLOSE])[q..] == (body + [CLOSE])[r..];
    assert ([OPEN] + body + [CLOSE])[q - 1] == (body + [CLOSE])[r - 1];
  }

  /** The JSON of every value is sealed: a match that begins in it ends in it. */
  lemma {:induction false} StringifyIsSealed(v: Json) returns (p: nat)
    ensures SealedAt(Stringify(v), p)
    decreases v, 1
  {
    var t := Stringify(v);
    match v
    case String(_) => p := |t|;
    case Arr(_) => p := |t|;
    case Obj(members) =>
      if members == [] {
        p := 0;
      } else {
        p := MembersAreSealed(members);
        p := BracedIsSealed(JoinMembers(members), p);
      }
    case _ => p := 0;
  }

  lemma {:induction false} MembersAreSealed(members: seq<Member>) returns (p: nat)
    requires members != []
    ensures SealedAt(JoinMembers(members), p) && p > 0
    decreases members, 0
  {
    var name := Quoted(members[0].name) + [COLON];
    var value := Stringify(members[0].value);
    var q := StringifyIsSealed(members[0].value);
    p := SealedConcat(name, |name|, value, q);
    if |members| == 1 {
      assert name + value + [] == name + value;
    } else {
      var rest := MembersAreSealed(members[1..]);
      rest := SealedConcat([COMMA], 1, JoinMembers(members[1..]), rest);
      p := SealedConcat(name + value, p, [COMMA] + JoinMembers(members[1..]), rest);
    }
  }

  lemma {:induction false} SealedSuffix(t: Text, p: nat, n: nat) returns (q: nat)
    requires SealedAt(t, p) && n <= |t|
    ensures SealedAt(t[n..], q)
  {
    if n <= p {
      q := p - n;
      assert t[n..][q..] == t[p..];
    } else {
      q := 0;
      assert t[n..][0..] == t[p..][n - p..];
    }
  }

  /** A match at the start of sealed text ends before the unit that seals it. */
  lemma {:induction false} MatchEndsInside(j: Text, p: nat, x: Text)
    requires SealedAt(j, p) && j != [] && MatchAt(j + x).Some?
    ensures MatchAt(j + x).value.len < p
  {
    var t := j + x;
    MatchUnits(t);
    assert t[0] == j[0] && (|j| > 1 ==> t[1] == j[1]);
    assert j[0..] == j;
    assert p > 0 ==> t[p - 1] == j[p - 1];
  }

  lemma {:induction false} MatchExtends(j: Text, x: Text)
    requires MatchAt(j).Some?
    ensures MatchAt(j + x) == MatchAt(j)
  {
    var n := MatchAt(j).value.len;
    MatchIsLocal(j, j[n..] + x);
    assert j[..n] + (j[n..] + x) == j + x;
  }

  /** What matches at the start of sealed text with something behind it matches without it. */
  lemma {:induction false} MatchStaysInside(j: Text, p: nat, x: Text)
    requires SealedAt(j, p) && j != []
    ensures MatchAt(j + x) == MatchAt(j)
  {
    if MatchAt(j + x).Some? {
      MatchEndsInside(j, p, x);
      var n := MatchAt(j + x).value.len;
      assert (j + x)[..n] + j[n..] == j;
      MatchIsLocal(j + x, j[n..]);
    }
    if MatchAt(j).Some? {
      MatchExtends(j, x);
    }
  }

  /** The matches in sealed text with something behind it are those of the two parts. */
  lemma {:induction false} HolesSplit(j: Text, p: nat, x: Text)
    requires SealedAt(j, p)
    ensures Holes(j + x) == Holes(j) + Holes(x)
    decreases |j|
  {
    if j == [] {
      assert j + x == x;
    } else {
      MatchStaysInside(j, p, x);
      var n := if MatchAt(j).Some? then MatchAt(j).value.len else 1;
      var q := SealedSuffix(j, p, n);
      HolesSplit(j[n..], q, x);
      assert (j + x)[n..] == j[n..] + x;
    }
  }

  // ---------- When the first pass completes a placeholder ----------

  /** A value whose JSON starts like a key: only these can complete an opening. */
  predicate StartsLikeAKey(v: Json) {
    v.Bool? || v.Num?
  }

  /** How the JSON of a non-null value starts. */
  lemma {:induction false} StringifyStarts(v: Json)
    requires !v.Null?
    ensures var t := Stringify(v);
      && t != [] && t[0] != CLOSE && !IsSpace(t[0])
      && (IsKeyUnit(t[0]) ==> StartsLikeAKey(v))
      && (t[0] == OPEN ==> |t| > 1 && !IsSpace(t[1]) && !IsKeyUnit(t[1]))
  {
    if v.Obj? {
      var ms := v.members;
      assert ms != [] ==> JoinMembers(ms)[0] == QUOTE;
      assert Stringify(v)[1] == if ms == [] then CLOSE else QUOTE;
    }
  }

  /** Scanning on from here, with each quoted placeholder read as its JSON, completes a placeholder. */
  predicate Completes(p: Phase, s: Text, vars: Variables)
    decreases |s|
  {
    s != [] &&
    var q := QuotedMatchAt(s);
    if q.Some? then
      && HasValue(q.value.key, vars) && StartsLikeAKey(vars[q.value.key])
      && p != Trailing && AllKey(Stringify(vars[q.value.key])) && Completes(InKey, s[q.value.len..], vars)
    else if IsSpace(s[0]) then Completes(if p == InKey then Trailing else p, s[1..], vars)
    else if IsKeyUnit(s[0]) && p != Trailing then Completes(InKey, s[1..], vars)
    else p != Leading && |s| > 1 && s[0] == CLOSE && s[1] == CLOSE
  }

  /** An opening that is completed once the quoted placeholders are replaced. */
  predicate Opens(s: Text, vars: Variables) {
    |s| > 1 && s[0] == OPEN && s[1] == OPEN && Completes(Leading, s[2..], vars)
  }

  lemma {:induction false} ScanKeyText(p: Phase, t: Text, y: Text)
    requires t != [] && forall i :: 0 <= i < |t| ==> IsKeyUnit(t[i]) || t[i] == 0x2B
    ensures ScanHole(p, t + y).Some? <==> p != Trailing && AllKey(t) && ScanHole(InKey, y).Some?
    decreases |t|
  {
    assert (t + y)[0] == t[0] && (t + y)[1..] == t[1..] + y;
    assert AllKey(t) <==> IsKeyUnit(t[0]) && AllKey(t[1..]) by {
      assert t == [t[0]] + t[1..];
    }
    if |t| == 1 {
      assert t[1..] + y == y;
    } else if IsKeyUnit(t[0]) && p != Trailing {
      ScanKeyText(InKey, t[1..], y);
    }
  }

  /** How the output of the first pass starts. */
  lemma {:induction false} FirstPassStarts(s: Text, vars: Variables)
    requires FirstPass(s, vars).Some?
    ensures var w := FirstPass(s, vars).value;
      && (w == [] <==> s == [])
      && (s != [] ==> (w[0] == CLOSE <==> s[0] == CLOSE))
  {
    if s != [] && QuotedMatchAt(s).Some? {
      StringifyStarts(vars[QuotedMatchAt(s).value.key]);
    }
  }

  /** Scanning the output of the first pass succeeds exactly when the template completes. */
  lemma {:induction false} ScanOfFirstPass(p: Phase, s: Text, vars: Variables)
    requires FirstPass(s, vars).Some?
    ensures ScanHole(p, FirstPass(s, vars).value).Some? <==> Completes(p, s, vars)
    decreases |s|
  {
    if s != [] {
      var q := QuotedMatchAt(s);
      if q.Some? {
        var v, rest := vars[q.value.key], s[q.value.len..];
        StringifyStarts(v);
        if StartsLikeAKey(v) {
          ScanKeyText(p, Stringify(v), FirstPass(rest, vars).value);
          ScanOfFirstPass(InKey, rest, vars);
        }
      } else {
        var w := FirstPass(s, vars).value;
        assert w[0] == s[0] && w[1..] == FirstPass(s[1..], vars).value;
        FirstPassStarts(s[1..], vars);
        if IsSpace(s[0]) {
          ScanOfFirstPass(if p == InKey then Trailing else p, s[1..], vars);
        } else if IsKeyUnit(s[0]) && p != Trailing {
          ScanOfFirstPass(InKey, s[1..], vars);
        }
      }
    }
  }

  /** At a unit that the first pass copies its output matches exactly when the template opens there. */
  lemma {:induction false} NewMatchExactly(s: Text, vars: Variables)
    requires s != [] && QuotedMatchAt(s).None? && FirstPass(s, vars).Some?
    ensures MatchAt(FirstPass(s, vars).value).Some? <==> Opens(s, vars)
  {
    var w, x := FirstPass(s, vars).value, FirstPass(s[1..], vars).value;
    assert w == [s[0]] + x;
    if |s| > 1 && s[1] == OPEN {
      assert s[1..][1..] == s[2..];
      assert w[2..] == FirstPass(s[2..], vars).value;
      ScanOfFirstPass(Leading, s[2..], vars);
    } else if x != [] && x[0] == OPEN {
      StringifyStarts(vars[QuotedMatchAt(s[1..]).value.key]);
      assert w[2..] == x[1..];
    }
  }

  // ---------- What the second pass finds ----------

  lemma {:induction false} AppTwice(a: Text, b: Text, r: Option<Text>)
    ensures App(a, App(b, r)) == App(a + b, r)
  {
    if r.Some? {
      assert a + (b + r.value) == a + b + r.value;
    }
  }

  /** The first pass copies text without quotes. */
  lemma {:induction false} UnquotedIsCopied(s: Text, n: nat, vars: Variables)
    requires n <= |s| && forall i :: 0 <= i < n ==> s[i] != QUOTE
    ensures FirstPass(s, vars) == App(s[..n], FirstPass(s[n..], vars))
    decreases n
  {
    if n == 0 {
      assert s[0..] == s;
      assert FirstPass(s, vars).Some? ==> s[..0] + FirstPass(s, vars).value == FirstPass(s, vars).value;
    } else {
      UnquotedIsCopied(s[1..], n - 1, vars);
      assert s[1..][n - 1..] == s[n..];
      AppTwice([s[0]], s[1..][..n - 1], FirstPass(s[n..], vars));
      assert [s[0]] + s[1..][..n - 1] == s[..n];
    }
  }

  /** The keys of the template's inline placeholders, in order. */
  function InlineKeys(s: Text): seq<Text>
    decreases |s|
  {
    if s == [] then []
    else
      var q, m := QuotedMatchAt(s), MatchAt(s);
      if q.Some? then InlineKeys(s[q.value.len..])
      else if m.Some? then [m.value.key] + InlineKeys(s[m.value.len..])
      else InlineKeys(s[1..])
  }

  /** No quoted value's JSON holds a placeholder, and no copied opening is completed by quoted values. */
  predicate Clean(s: Text, vars: Variables)
    decreases |s|
  {
    s != [] ==>
      var q, m := QuotedMatchAt(s), MatchAt(s);
      if q.Some? then
        && (HasValue(q.value.key, vars) ==> Holes(Stringify(vars[q.value.key])) == [])
        && Clean(s[q.value.len..], vars)
      else if m.Some? then Clean(s[m.value.len..], vars)
      else !Opens(s, vars) && Clean(s[1..], vars)
  }

  /** How many placeholders the first pass adds: those in quoted values, and those it completes. */
  function Added(s: Text, vars: Variables): nat
    decreases |s|
  {
    if s == [] then 0
    else
      var q, m := QuotedMatchAt(s), MatchAt(s);
      if q.Some? then
        (if HasValue(q.value.key, vars) then |Holes(Stringify(vars[q.value.key]))| else 0)
        + Added(s[q.value.len..], vars)
      else if m.Some? then Added(s[m.value.len..], vars)
      else (if Opens(s, vars) then 1 else 0) + Added(s[1..], vars)
  }

  lemma {:induction false} CleanAddsNothing(s: Text, vars: Variables)
    ensures Clean(s, vars) <==> Added(s, vars) == 0
    decreases |s|
  {
    if s != [] {
      var q, m := QuotedMatchAt(s), MatchAt(s);
      CleanAddsNothing(s[if q.Some? then q.value.len else if m.Some? then m.value.len else 1..], vars);
    }
  }

  /** The output of the first pass keeps every inline placeholder and has just the added ones besides. */
  lemma {:induction false} PlaceholdersAfterFirstPass(s: Text, vars: Variables)
    requires FirstPass(s, vars).Some?
    ensures |Holes(FirstPass(s, vars).value)| == |InlineKeys(s)| + Added(s, vars)
    ensures Clean(s, vars) ==> Holes(FirstPass(s, vars).value) == InlineKeys(s)
    decreases |s|
  {
    if s != [] {
      var q, m := QuotedMatchAt(s), MatchAt(s);
      if q.Some? {
        var j, rest := Stringify(vars[q.value.key]), s[q.value.len..];
        PlaceholdersAfterFirstPass(rest, vars);
        var p := StringifyIsSealed(vars[q.value.key]);
        HolesSplit(j, p, FirstPass(rest, vars).value);
      } else if m.Some? {
        InlineIsKept(s, vars);
        PlaceholdersAfterFirstPass(s[m.value.len..], vars);
      } else {
        var w, x := FirstPass(s, vars).value, FirstPass(s[1..], vars).value;
        assert w[1..] == x;
        PlaceholdersAfterFirstPass(s[1..], vars);
        NewMatchExactly(s, vars);
        if MatchAt(w).Some? {
          MatchesDoNotOverlap(w);
        }
      }
    }
  }

  lemma {:induction false} InlineIsKept(s: Text, vars: Variables)
    requires QuotedMatchAt(s).None? && MatchAt(s).Some? && FirstPass(s, vars).Some?
    ensures var m := MatchAt(s).value;
      && FirstPass(s[m.len..], vars).Some?
      && Holes(FirstPass(s, vars).value) == [m.key] + Holes(FirstPass(s[m.len..], vars).value)
  {
    var n := MatchAt(s).value.len;
    MatchHasNoQuotes(s);
    UnquotedIsCopied(s, n, vars);
    var x := FirstPass(s[n..], vars).value;
    MatchIsLocal(s, x);
    assert (s[..n] + x)[n..] == x;
  }

  /**
   * The second pass finds exactly the template's inline placeholders if and only if
   * no quoted value's JSON holds a placeholder and no opening is completed by one.
   */
  lemma {:induction false} SecondPassFindsTheInlineExactly(s: Text, vars: Variables)
    requires FirstPass(s, vars).Some?
    ensures Holes(FirstPass(s, vars).value) == InlineKeys(s) <==> Clean(s, vars)
  {
    PlaceholdersAfterFirstPass(s, vars);
    CleanAddsNothing(s, vars);
  }

  // ---------- Two passes are one ----------

  /** The second pass copies sealed text without placeholders. */
  lemma {:induction false} HolelessIsCopied(j: Text, p: nat, x: Text, vars: Variables)
    requires SealedAt(j, p) && Holes(j) == []
    ensures SecondPass(j + x, vars) == App(j, SecondPass(x, vars))
    decreases |j|
  {
    if j == [] {
      assert j + x == x;
      assert SecondPass(x, vars).Some? ==> [] + SecondPass(x, vars).value == SecondPass(x, vars).value;
    } else {
      MatchStaysInside(j, p, x);
      var q := SealedSuffix(j, p, 1);
      HolelessIsCopied(j[1..], q, x, vars);
      assert (j + x)[1..] == j[1..] + x;
      AppTwice([j[0]], j[1..], SecondPass(x, vars));
      assert [j[0]] + j[1..] == j;
    }
  }

  /** The second pass replaces a placeholder that the first pass copied. */
  lemma {:induction false} PlaceholderSurvives(s: Text, x: Text, vars: Variables)
    requires MatchAt(s).Some? && HasValue(MatchAt(s).value.key, vars)
    ensures SecondPass(s[..MatchAt(s).value.len] + x, vars)
         == App(SafeString(vars[MatchAt(s).value.key]), SecondPass(x, vars))
  {
    var n := MatchAt(s).value.len;
    MatchIsLocal(s, x);
    assert (s[..n] + x)[n..] == x;
  }

  lemma {:induction false} UndefinedFails(s: Text, x: Text, vars: Variables)
    requires MatchAt(s).Some? && !HasValue(MatchAt(s).value.key, vars)
    ensures SecondPass(s[..MatchAt(s).value.len] + x, vars) == None
  {
    MatchIsLocal(s, x);
  }

  /**
   * The two passes are simultaneous one-pass substitution, failing on the same
   * inputs, whenever the second pass finds only the template's inline placeholders.
   */
  lemma {:induction false} TwoPassesAreOne(s: Text, vars: Variables)
    requires Clean(s, vars)
    ensures TwoPasses(s, vars) == OnePass(s, vars)
    decreases |s|
  {
    if s != [] {
      var q, m := QuotedMatchAt(s), MatchAt(s);
      if q.Some? {
        QuotedStep(s, vars);
      } else if m.Some? {
        InlineStep(s, vars);
      } else {
        TwoPassesAreOne(s[1..], vars);
        if FirstPass(s, vars).Some? {
          NewMatchExactly(s, vars);
          var x := FirstPass(s[1..], vars).value;
          assert ([s[0]] + x)[1..] == x;
        }
      }
    }
  }

  lemma {:induction false} QuotedStep(s: Text, vars: Variables)
    requires Clean(s, vars) && QuotedMatchAt(s).Some?
    ensures TwoPasses(s, vars) == OnePass(s, vars)
    decreases |s|, 0
  {
    var q := QuotedMatchAt(s).value;
    if HasValue(q.key, vars) {
      TwoPassesAreOne(s[q.len..], vars);
      if FirstPass(s, vars).Some? {
        var p := StringifyIsSealed(vars[q.key]);
        HolelessIsCopied(Stringify(vars[q.key]), p, FirstPass(s[q.len..], vars).value, vars);
      }
    }
  }

  lemma {:induction false} InlineStep(s: Text, vars: Variables)
    requires Clean(s, vars) && QuotedMatchAt(s).None? && MatchAt(s).Some?
    ensures TwoPasses(s, vars) == OnePass(s, vars)
    decreases |s|, 0
  {
    var m := MatchAt(s).value;
    MatchHasNoQuotes(s);
    UnquotedIsCopied(s, m.len, vars);
    TwoPassesAreOne(s[m.len..], vars);
    if FirstPass(s, vars).Some? {
      var x := FirstPass(s[m.len..], vars).value;
      if HasValue(m.key, vars) {
        PlaceholderSurvives(s, x, vars);
      } else {
        UndefinedFails(s, x, vars);
      }
    }
  }

  // ---------- Templates in pieces ----------

  /** A stretch of text without opening braces, a placeholder with its quotes, or a placeholder alone. */
  datatype Segment = Verbatim(text: Text) | Typed(spelling: Text, key: Text) | Inline(spelling: Text, key: Text)

  ghost predicate IsSegment(g: Segment, vars: Variables) {
    match g
    case Verbatim(text) => text != [] && OPEN !in text
    case Typed(w, key) => IsPlaceholder(w, key) && HasValue(key, vars)
    case Inline(w, key) => IsPlaceholder(w, key) && HasValue(key, vars)
  }

  function Spelling(gs: seq<Segment>): Text {
    if gs == [] then []
    else (match gs[0]
          case Verbatim(text) => text
          case Typed(w, _) => [QUOTE] + w + [QUOTE]
          case Inline(w, _) => w) + Spelling(gs[1..])
  }

  /** No placeholder alone stands between two quotes of the text around it. */
  predicate WellPlaced(gs: seq<Segment>) {
    gs != [] ==>
      && WellPlaced(gs[1..])
      && (gs[0].Verbatim? && gs[0].text != [] && gs[0].text[|gs[0].text| - 1] == QUOTE && |gs| > 1 && gs[1].Inline? ==>
          var after := Spelling(gs[2..]); after == [] || after[0] != QUOTE)
  }

  /** The same text with typed JSON for quoted placeholders and safe strings for the others. */
  ghost function WithValues(gs: seq<Segment>, vars: Variables): Text
    requires forall g :: g in gs ==> IsSegment(g, vars)
  {
    if gs == [] then []
    else
      assert IsSegment(gs[0], vars);
      (match gs[0]
       case Verbatim(text) => text
       case Typed(_, key) => Stringify(vars[key])
       case Inline(_, key) => SafeString(vars[key])) + WithValues(gs[1..], vars)
  }

  lemma {:induction false} VerbatimIsCopied(text: Text, r: Text, vars: Variables)
    requires OPEN !in text
    requires text != [] && text[|text| - 1] == QUOTE ==> QuotedMatchAt([QUOTE] + r).None?
    ensures OnePass(text + r, vars) == App(text, OnePass(r, vars))
    decreases |text|
  {
    if text == [] {
      assert text + r == r;
      assert OnePass(r, vars).Some? ==> [] + OnePass(r, vars).value == OnePass(r, vars).value;
    } else {
      var s := text + r;
      assert s[0] == text[0] && s[1..] == text[1..] + r;
      if |text| == 1 {
        assert text == [text[0]] && s == [text[0]] + r;
      } else {
        assert s[1..][0] == text[1];
      }
      assert QuotedMatchAt(s).None? && MatchAt(s).None?;
      VerbatimIsCopied(text[1..], r, vars);
      AppTwice([text[0]], text[1..], OnePass(r, vars));
      assert [text[0]] + text[1..] == text;
    }
  }

  /** What follows a stretch of text does not make a quoted placeholder of its last quote. */
  lemma {:induction false} NoQuotedMatchAcross(gs: seq<Segment>, vars: Variables)
    requires forall g :: g in gs ==> IsSegment(g, vars)
    requires gs != [] && gs[0].Inline? ==> var after := Spelling(gs[1..]); after == [] || after[0] != QUOTE
    ensures QuotedMatchAt([QUOTE] + Spelling(gs)).None?
  {
    var r := Spelling(gs);
    assert ([QUOTE] + r)[1..] == r;
    if gs != [] {
      assert IsSegment(gs[0], vars);
      if gs[0].Inline? {
        var w, after := gs[0].spelling, Spelling(gs[1..]);
        PlaceholderMatches(w, gs[0].key, after);
        assert r == w + after;
        assert |r| > |w| ==> ([QUOTE] + r)[1 + |w|] == after[0];
      } else {
        assert r[0] != OPEN;
      }
    }
  }

  lemma {:induction false} TypedIsReplaced(w: Text, key: Text, rest: Text, vars: Variables)
    requires IsPlaceholder(w, key) && HasValue(key, vars)
    ensures OnePass([QUOTE] + w + [QUOTE] + rest, vars) == App(Stringify(vars[key]), OnePass(rest, vars))
  {
    var s, end := [QUOTE] + w + [QUOTE] + rest, [QUOTE] + rest;
    PlaceholderMatches(w, key, end);
    assert s[1..] == w + end && s[1 + |w|] == QUOTE && s[|w| + 2..] == rest;
  }

  lemma {:induction false} InlineIsReplaced(w: Text, key: Text, rest: Text, vars: Variables)
    requires IsPlaceholder(w, key) && HasValue(key, vars)
    ensures OnePass(w + rest, vars) == App(SafeString(vars[key]), OnePass(rest, vars))
  {
    PlaceholderMatches(w, key, rest);
    assert (w + rest)[|w|..] == rest;
  }

  /** On a template in pieces the single pass puts each value in its place and leaves all else as it is. */
  lemma {:induction false} OnePassOfPieces(gs: seq<Segment>, vars: Variables)
    requires (forall g :: g in gs ==> IsSegment(g, vars)) && WellPlaced(gs)
    ensures OnePass(Spelling(gs), vars) == Some(WithValues(gs, vars))
    decreases |gs|
  {
    if gs != [] {
      assert IsSegment(gs[0], vars);
      var rest := Spelling(gs[1..]);
      OnePassOfPieces(gs[1..], vars);
      match gs[0]
      case Verbatim(text) =>
        if text[|text| - 1] == QUOTE {
          assert |gs| > 1 ==> gs[1..][0] == gs[1] && gs[1..][1..] == gs[2..];
          NoQuotedMatchAcross(gs[1..], vars);
        }
        VerbatimIsCopied(text, rest, vars);
      case Typed(w, key) => TypedIsReplaced(w, key, rest, vars);
      case Inline(w, key) => InlineIsReplaced(w, key, rest, vars);
    }
  }

  /** And so do the two passes, if the second finds only the template's inline placeholders. */
  lemma {:induction false} TwoPassesOfPieces(gs: seq<Segment>, vars: Variables)
    requires (forall g :: g in gs ==> IsSegment(g, vars)) && WellPlaced(gs) && Clean(Spelling(gs), vars)
    ensures TwoPasses(Spelling(gs), vars) == Some(WithValues(gs, vars))
  {
    OnePassOfPieces(gs, vars);
    TwoPassesAreOne(Spelling(gs), vars);
  }

  // ---------- Variables that suit every template ----------

  /** Strings, arrays and objects in which no text holds `{{`. */
  predicate Plain(vars: Variables) {
    forall k :: k in vars ==> HoldsNoOpening(vars[k]) && !StartsLikeAKey(vars[k])
  }

  lemma {:induction false} InertHasNoHoles(t: Text)
    requires Inert(t)
    ensures Holes(t) == []
    decreases |t|
  {
    if t != [] {
      InertHasNoHoles(t[1..]);
    }
  }

  lemma {:induction false} PlainCompletesNothing(p: Phase, s: Text, vars: Variables)
    requires Plain(vars) && Completes(p, s, vars)
    ensures ScanHole(p, s).Some?
    decreases |s|
  {
    if QuotedMatchAt(s).None? {
      if IsSpace(s[0]) {
        PlainCompletesNothing(if p == InKey then Trailing else p, s[1..], vars);
      } else if IsKeyUnit(s[0]) && p != Trailing {
        PlainCompletesNothing(InKey, s[1..], vars);
      }
    }
  }

  /** With such variables two passes are one on every template. */
  lemma {:induction false} PlainVariablesAreClean(s: Text, vars: Variables)
    requires Plain(vars)
    ensures Clean(s, vars) && TwoPasses(s, vars) == OnePass(s, vars)
    decreases |s|
  {
    if s != [] {
      var q, m := QuotedMatchAt(s), MatchAt(s);
      PlainVariablesAreClean(s[if q.Some? then q.value.len else if m.Some? then m.value.len else 1..], vars);
      if q.Some? && HasValue(q.value.key, vars) {
        StringifyIsInert(vars[q.value.key]);
        InertHasNoHoles(Stringify(vars[q.value.key]));
      }
      if Opens(s, vars) {
        PlainCompletesNothing(Leading, s[2..], vars);
      }
    }
    TwoPassesAreOne(s, vars);
  }

  // ---------- Inputs on which the passes differ from one ----------

  const A: Text := [0x61]
  const B: Text := [0x62]

  /** The placeholder for a one-unit key. */
  function HoleFor(u: CodeUnit): Text {
    [OPEN, OPEN, u, CLOSE, CLOSE]
  }

  lemma {:induction false} HoleForMatches(u: CodeUnit, rest: Text)
    requires IsKeyUnit(u)
    ensures MatchAt(HoleFor(u) + rest) == Some(Match([u], 5))
  {
    assert HoleFor(u) == [OPEN, OPEN] + Tail([], [u], []);
    PlaceholderMatches(HoleFor(u), [u], rest);
  }

  lemma {:induction false} QuotedHoleAlone(u: CodeUnit, vars: Variables)
    requires IsKeyUnit(u) && HasValue([u], vars)
    ensures var t := [QUOTE] + HoleFor(u) + [QUOTE];
      OnePass(t, vars) == FirstPass(t, vars) == Some(Stringify(vars[[u]]))
  {
    var t := [QUOTE] + HoleFor(u) + [QUOTE];
    HoleForMatches(u, [QUOTE]);
    assert t[1..] == HoleFor(u) + [QUOTE];
    assert QuotedMatchAt(t) == Some(Match([u], 7)) && t[7..] == [];
    assert Stringify(vars[[u]]) + [] == Stringify(vars[[u]]);
  }

  lemma {:induction false} InlineHoleInQuotes(u: CodeUnit, vars: Variables)
    requires IsKeyUnit(u) && HasValue([u], vars)
    ensures SecondPass([QUOTE] + HoleFor(u) + [QUOTE], vars) == Some([QUOTE] + SafeString(vars[[u]]) + [QUOTE])
  {
    var x, end: Text := HoleFor(u) + [QUOTE], [QUOTE];
    HoleForMatches(u, [QUOTE]);
    assert end[1..] == [] && end + [] == end && x[5..] == end;
    assert SecondPass(end, vars) == Some(end);
    assert SecondPass(x, vars) == Some(SafeString(vars[[u]]) + end);
    var w := [QUOTE] + HoleFor(u) + [QUOTE];
    assert w[1..] == x;
    assert [QUOTE] + (SafeString(vars[[u]]) + end) == [QUOTE] + SafeString(vars[[u]]) + [QUOTE];
  }

  /** A quoted value that spells a placeholder is expanded a second time. */
  lemma {:induction false} QuotedValueIsExpandedTwice(v: Text)
    ensures
      var t := [QUOTE] + HoleFor(0x61) + [QUOTE];
      var vars := map[A := String(HoleFor(0x62)), B := String(v)];
      && OnePass(t, vars) == Some(Quoted(HoleFor(0x62)))
      && TwoPasses(t, vars) == Some(Quoted(v))
  {
    var vars := map[A := String(HoleFor(0x62)), B := String(v)];
    QuotedHoleAlone(0x61, vars);
    EscapePlainHole();
    InlineHoleInQuotes(0x62, vars);
  }

  lemma {:induction false} EscapePlainHole()
    ensures Escape(HoleFor(0x62)) == HoleFor(0x62)
  {
    var h := HoleFor(0x62);
    assert Escape(h[5..]) == [];
    assert Escape(h[4..]) == [h[4]] + Escape(h[4..][1..]) && h[4..][1..] == h[5..];
    assert Escape(h[3..]) == [h[3]] + Escape(h[3..][1..]) && h[3..][1..] == h[4..];
    assert Escape(h[2..]) == [h[2]] + Escape(h[2..][1..]) && h[2..][1..] == h[3..];
    assert Escape(h[1..]) == [h[1]] + Escape(h[1..][1..]) && h[1..][1..] == h[2..];
    assert Escape(h) == [h[0]] + Escape(h[1..]);
  }

  /** An opening in front of a quote is copied by either form. */
  lemma {:induction false} OpeningIsCopied(r: Text, vars: Variables)
    requires r != [] && r[0] == QUOTE
    ensures FirstPass([OPEN, OPEN] + r, vars) == App([OPEN, OPEN], FirstPass(r, vars))
    ensures OnePass([OPEN, OPEN] + r, vars) == App([OPEN, OPEN], OnePass(r, vars))
  {
    var t, u := [OPEN, OPEN] + r, [OPEN] + r;
    assert t[1..] == u && u[1..] == r && t[2..] == r;
    assert QuotedMatchAt(t).None? && MatchAt(t).None?;
    assert QuotedMatchAt(u).None? && MatchAt(u).None?;
    AppTwice([OPEN], [OPEN], FirstPass(r, vars));
    AppTwice([OPEN], [OPEN], OnePass(r, vars));
    assert [OPEN] + [OPEN] == [OPEN, OPEN];
  }

  lemma {:induction false} ClosingIsCopied(vars: Variables)
    ensures FirstPass(END, vars) == OnePass(END, vars) == Some(END)
  {
    assert END[1..] == [CLOSE] && [CLOSE][1..] == [];
    assert [CLOSE] + [] == [CLOSE] && [CLOSE] + [CLOSE] == END;
    assert FirstPass([CLOSE], vars) == OnePass([CLOSE], vars) == Some([CLOSE]);
  }

  lemma {:induction false} QuotedHoleBeforeClosing(u: CodeUnit, vars: Variables)
    requires IsKeyUnit(u) && HasValue([u], vars)
    ensures var r := [QUOTE] + HoleFor(u) + [QUOTE] + END;
      FirstPass(r, vars) == OnePass(r, vars) == Some(Stringify(vars[[u]]) + END)
  {
    var r := [QUOTE] + HoleFor(u) + [QUOTE] + END;
    HoleForMatches(u, [QUOTE] + END);
    assert r[1..] == HoleFor(u) + ([QUOTE] + END);
    assert QuotedMatchAt(r) == Some(Match([u], 7)) && r[7..] == END;
    ClosingIsCopied(vars);
  }

  lemma {:induction false} HoleIsReplaced(u: CodeUnit, vars: Variables)
    requires IsKeyUnit(u) && HasValue([u], vars)
    ensures SecondPass(HoleFor(u), vars) == Some(SafeString(vars[[u]]))
  {
    var h := HoleFor(u);
    HoleForMatches(u, []);
    assert h + [] == h && h[5..] == [];
    assert SafeString(vars[[u]]) + [] == SafeString(vars[[u]]);
  }

  /** An opening that runs into a quoted placeholder for a number becomes a placeholder for that number's digits. */
  lemma {:induction false} OpeningBeforeANumberMakesAPlaceholder(v: Text)
    ensures
      var t := [OPEN, OPEN] + ([QUOTE] + HoleFor(0x61) + [QUOTE] + END);
      var vars := map[A := Num([0x35]), [0x35] := String(v)];
      && OnePass(t, vars) == Some(HoleFor(0x35))
      && TwoPasses(t, vars) == Some(Escape(v))
  {
    var vars: Variables := map[A := Num([0x35]), [0x35] := String(v)];
    var r := [QUOTE] + HoleFor(0x61) + [QUOTE] + END;
    QuotedHoleBeforeClosing(0x61, vars);
    OpeningIsCopied(r, vars);
    assert [OPEN, OPEN] + ([0x35] + END) == HoleFor(0x35);
    HoleIsReplaced(0x35, vars);
  }
}
