/**
 * Workflow template rendering (workflowTemplateService): placeholders are
 * replaced in one left-to-right pass, and the result is read as JSON. The main
 * result, `RenderingCommutesWithLexing`, says what the rendered text means: the
 * template's own tokens with every placeholder standing for its value.
 */
module Templates {
  import opened Wrappers
  import opened JsonText
  import opened Placeholders

  /** How `String(n)` and `String(b)` print: text with nothing to escape. */
  type Plain = t: Text | IsPlain(t) witness []

  /** A variable; `OtherType` stands for anything that is neither string, number nor boolean. */
  datatype Value = StringValue(text: Text) | PrintedValue(printed: Plain) | OtherType

  type Variables = map<Text, Value>

  datatype Rendered = Ok(text: Text) | InvalidType(key: Text)

  datatype Outcome = Missing(keys: seq<Text>) | Finished(result: Rendered)

  // ---------- Rendering ----------

  /** The match of length `n` at the start of `s` stands between two quotes; `prev` is the unit before it. */
  predicate Surrounded(prev: Option<CodeUnit>, s: Text, n: nat) {
    prev == Some(QUOTE) && n < |s| && s[n] == QUOTE
  }

  function Replacement(v: Value, surrounded: bool): Text
    requires !v.OtherType?
  {
    match v
    case StringValue(t) => if surrounded then Escape(t) else Quoted(t)
    case PrintedValue(p) => p
  }

  function Append(t: Text, r: Rendered): Rendered {
    if r.Ok? then Ok(t + r.text) else r
  }

  /** `template.replace(regex, callback)`, from a position whose preceding unit is `prev`. */
  function Render(prev: Option<CodeUnit>, s: Text, vars: Variables): Rendered
    decreases |s|
  {
    if s == [] then Ok([])
    else
      var m := MatchAt(s);
      if m.None? then Append([s[0]], Render(Some(s[0]), s[1..], vars))
      else
        var n, key := m.value.len, m.value.key;
        var rest := Render(Some(CLOSE), s[n..], vars);
        if key !in vars then Append(s[..n], rest)
        else if vars[key].OtherType? then InvalidType(key)
        else Append(Replacement(vars[key], Surrounded(prev, s, n)), rest)
  }

  function MissingKeys(keys: seq<Text>, vars: Variables): (ms: seq<Text>)
    ensures forall k :: k in ms <==> k in keys && k !in vars
  {
    if keys == [] then []
    else (if keys[0] in vars then [] else [keys[0]]) + MissingKeys(keys[1..], vars)
  }

  /** The whole of rendering up to `JSON.parse`: placeholders are collected and checked first. */
  method RenderTemplate(template: Text, vars: Variables) returns (out: Outcome)
    ensures out.Missing? <==> exists k :: k in Holes(template) && k !in vars
    ensures out.Missing? ==> out.keys == MissingKeys(Distinct(Holes(template)), vars)
    ensures out.Finished? ==> out.result == Render(None, template, vars)
  {
    var placeholders := CollectPlaceholders(template);
    var missing := MissingKeys(placeholders, vars);
    if missing != [] {
      assert missing[0] in missing;
      return Missing(missing);
    }
    return Finished(Render(None, template, vars));
  }

  // ---------- What the check and the replacement have in common ----------

  /** Every placeholder of the text has a usable value. */
  predicate AllBound(s: Text, vars: Variables) {
    forall k :: k in Holes(s) ==> k in vars && !vars[k].OtherType?
  }

  /** The template as copied units and placeholders with the spelling they had. */
  datatype Piece = Copied(unit: CodeUnit) | Hole(key: Text, raw: Text, surrounded: bool)

  function Pieces(prev: Option<CodeUnit>, s: Text): seq<Piece>
    decreases |s|
  {
    if s == [] then []
    else
      var m := MatchAt(s);
      if m.None? then [Copied(s[0])] + Pieces(Some(s[0]), s[1..])
      else
        var n := m.value.len;
        [Hole(m.value.key, s[..n], Surrounded(prev, s, n))] + Pieces(Some(CLOSE), s[n..])
  }

  function Spell(p: Piece): Text {
    if p.Copied? then [p.unit] else p.raw
  }

  function SpellAll(ps: seq<Piece>): Text {
    if ps == [] then [] else Spell(ps[0]) + SpellAll(ps[1..])
  }

  function Fill(p: Piece, vars: Variables): Text
    requires p.Hole? ==> p.key in vars && !vars[p.key].OtherType?
  {
    if p.Copied? then [p.unit] else Replacement(vars[p.key], p.surrounded)
  }

  function FillAll(ps: seq<Piece>, vars: Variables): Text
    requires forall p :: p in ps && p.Hole? ==> p.key in vars && !vars[p.key].OtherType?
  {
    if ps == [] then [] else Fill(ps[0], vars) + FillAll(ps[1..], vars)
  }

  function HoleKeys(ps: seq<Piece>): seq<Text> {
    if ps == [] then []
    else if ps[0].Hole? then [ps[0].key] + HoleKeys(ps[1..])
    else HoleKeys(ps[1..])
  }

  lemma {:induction false} HoleKeysAreKeys(ps: seq<Piece>)
    ensures forall p :: p in ps && p.Hole? ==> p.key in HoleKeys(ps)
  {
    if ps != [] {
      HoleKeysAreKeys(ps[1..]);
      assert ps == [ps[0]] + ps[1..];
    }
  }

  lemma {:induction false} FirstPiece(p: Piece, ps: seq<Piece>)
    ensures SpellAll([p] + ps) == Spell(p) + SpellAll(ps)
    ensures HoleKeys([p] + ps) == if p.Hole? then [p.key] + HoleKeys(ps) else HoleKeys(ps)
  {
    assert ([p] + ps)[1..] == ps;
  }

  /** The pieces spell the template, and their placeholders are the collected ones, in order. */
  lemma {:induction false} PiecesCoverTheTemplate(prev: Option<CodeUnit>, s: Text)
    ensures SpellAll(Pieces(prev, s)) == s
    ensures HoleKeys(Pieces(prev, s)) == Holes(s)
    decreases |s|
  {
    if s != [] {
      var p, last, n := NextPiece(prev, s);
      PiecesCoverTheTemplate(last, s[n..]);
      FirstPiece(p, Pieces(last, s[n..]));
      assert s[..n] + s[n..] == s;
    }
  }

  lemma {:induction false} MatchCloses(s: Text)
    requires MatchAt(s).Some?
    ensures s[MatchAt(s).value.len - 1] == CLOSE
  {
    var n := MatchAt(s).value.len;
    MatchIsPlaceholder(s);
    var l, r :| AllSpace(l) && AllSpace(r) && s[..n] == [OPEN, OPEN] + Tail(l, MatchAt(s).value.key, r);
    assert s[n - 1] == s[..n][n - 1];
  }

  lemma {:induction false} NextPiece(prev: Option<CodeUnit>, s: Text) returns (p: Piece, last: Option<CodeUnit>, n: nat)
    requires s != []
    ensures 0 < n <= |s| && Spell(p) == s[..n] && last == Some(s[n - 1])
    ensures p.Hole? ==> p.surrounded == Surrounded(prev, s, n)
    ensures Pieces(prev, s) == [p] + Pieces(last, s[n..])
    ensures Holes(s) == if p.Hole? then [p.key] + Holes(s[n..]) else Holes(s[n..])
  {
    var m := MatchAt(s);
    if m.None? {
      p, last, n := Copied(s[0]), Some(s[0]), 1;
    } else {
      n := m.value.len;
      MatchCloses(s);
      p, last := Hole(m.value.key, s[..n], Surrounded(prev, s, n)), Some(CLOSE);
    }
  }

  /**
   * When the check finds nothing missing, the replacement finds exactly the
   * collected placeholders: every one is replaced, every other unit is copied,
   * and what a value contributes is decided by that value alone, so text inside
   * a substituted value is never expanded.
   */
  lemma {:induction false} ReplacementFindsTheCollectedHoles(prev: Option<CodeUnit>, s: Text, vars: Variables)
    requires AllBound(s, vars)
    ensures forall p :: p in Pieces(prev, s) && p.Hole? ==> p.key in vars && !vars[p.key].OtherType?
    ensures Render(prev, s, vars) == Ok(FillAll(Pieces(prev, s), vars))
    decreases |s|
  {
    var ps := Pieces(prev, s);
    PiecesCoverTheTemplate(prev, s);
    HoleKeysAreKeys(ps);
    if s != [] {
      var m := MatchAt(s);
      if m.None? {
        ReplacementFindsTheCollectedHoles(Some(s[0]), s[1..], vars);
        assert ps[1..] == Pieces(Some(s[0]), s[1..]);
      } else {
        ReplacementFindsTheCollectedHoles(Some(CLOSE), s[m.value.len..], vars);
        assert ps[1..] == Pieces(Some(CLOSE), s[m.value.len..]);
      }
    }
  }

  lemma {:induction false} AppendTwice(a: Text, b: Text, r: Rendered)
    ensures Append(a, Append(b, r)) == Append(a + b, r)
  {
    if r.Ok? {
      assert a + (b + r.text) == a + b + r.text;
    }
  }

  /** Units before the first opening brace are copied. */
  lemma {:induction false} CopiedRun(prev: Option<CodeUnit>, s: Text, n: nat, vars: Variables)
    requires 0 < n <= |s|
    requires forall i :: 0 <= i < n ==> s[i] != OPEN
    ensures Render(prev, s, vars) == Append(s[..n], Render(Some(s[n - 1]), s[n..], vars))
    decreases n
  {
    if n == 1 {
      assert s[..1] == [s[0]];
    } else {
      CopiedRun(Some(s[0]), s[1..], n - 1, vars);
      assert s[1..][n - 1..] == s[n..];
      assert [s[0]] + s[1..][..n - 1] == s[..n];
      AppendTwice([s[0]], s[1..][..n - 1], Render(Some(s[n - 1]), s[n..], vars));
    }
  }

  /** A piece starts at offset `o` of the text, and if it is a placeholder it counts as surrounded exactly if
      the units right before and right after it there are quotes. */
  predicate MarkedAt(t: Text, o: nat, p: Piece) {
    && o + |Spell(p)| <= |t| && t[o..o + |Spell(p)|] == Spell(p)
    && (p.Hole? ==>
        (p.surrounded
         <==> o > 0 && t[o - 1] == QUOTE && o + |p.raw| < |t| && t[o + |p.raw|] == QUOTE))
  }

  /** The last unit of a text. */
  function LastOf(b: Text): Option<CodeUnit> {
    if b == [] then None else Some(b[|b| - 1])
  }

  /** The text is `b` and then `s`, unit by unit. */
  predicate SplitsInto(t: Text, b: Text, s: Text) {
    && |t| == |b| + |s|
    && (forall j :: 0 <= j < |b| ==> t[j] == b[j])
    && (forall j :: 0 <= j < |s| ==> t[|b| + j] == s[j])
  }

  /** The length of the text that the first `i` pieces spell. */
  function Offset(ps: seq<Piece>, i: nat): nat
    requires i <= |ps|
  {
    if i == 0 then 0 else Offset(ps, i - 1) + |Spell(ps[i - 1])|
  }

  lemma {:induction false} SpellLast(ps: seq<Piece>, p: Piece)
    ensures |SpellAll(ps + [p])| == |SpellAll(ps)| + |Spell(p)|
  {
    if ps == [] {
      assert ps + [p] == [p] && [p][1..] == [];
    } else {
      SpellLast(ps[1..], p);
      assert (ps + [p])[1..] == ps[1..] + [p];
    }
  }

  lemma {:induction false} OffsetIsSpelled(ps: seq<Piece>, i: nat)
    requires i <= |ps|
    ensures Offset(ps, i) == |SpellAll(ps[..i])|
  {
    if i > 0 {
      OffsetIsSpelled(ps, i - 1);
      SpellLast(ps[..i - 1], ps[i - 1]);
      assert ps[..i] == ps[..i - 1] + [ps[i - 1]];
    } else {
      assert ps[..0] == [];
    }
  }

  lemma {:induction false} OffsetShifts(p: Piece, ps: seq<Piece>, i: nat)
    requires i <= |ps|
    ensures Offset([p] + ps, i + 1) == |Spell(p)| + Offset(ps, i)
  {
    if i > 0 {
      OffsetShifts(p, ps, i - 1);
    }
  }

  /** The pieces are those of a scan of `s` after the text `b`. */
  predicate ScanGives(b: Text, s: Text, ps: seq<Piece>)
    decreases |ps|
  {
    if ps == [] then s == []
    else
      var p := ps[0];
      var n := |Spell(p)|;
      && 0 < n <= |s| && Spell(p) == s[..n]
      && (p.Hole? ==> p.surrounded == Surrounded(LastOf(b), s, n))
      && ScanGives(b + s[..n], s[n..], ps[1..])
  }

  lemma {:induction false} ScanGivesCons(b: Text, s: Text, p: Piece, ps: seq<Piece>)
    requires 0 < |Spell(p)| <= |s| && Spell(p) == s[..|Spell(p)|]
    requires p.Hole? ==> p.surrounded == Surrounded(LastOf(b), s, |Spell(p)|)
    requires ScanGives(b + s[..|Spell(p)|], s[|Spell(p)|..], ps)
    ensures ScanGives(b, s, [p] + ps)
  {
    assert ([p] + ps)[1..] == ps;
  }

  lemma {:induction false} PiecesAreScanned(b: Text, s: Text)
    ensures ScanGives(b, s, Pieces(LastOf(b), s))
    decreases |s|
  {
    if s != [] {
      var p, last, n := NextPiece(LastOf(b), s);
      PiecesAreScanned(b + s[..n], s[n..]);
      assert LastOf(b + s[..n]) == last;
      ScanGivesCons(b, s, p, Pieces(last, s[n..]));
    }
  }

  lemma {:induction false} FirstIsMarked(t: Text, b: Text, s: Text, ps: seq<Piece>)
    requires SplitsInto(t, b, s) && ps != [] && ScanGives(b, s, ps)
    ensures MarkedAt(t, |b|, ps[0])
  {
    var n := |Spell(ps[0])|;
    assert t[|b|..|b| + n] == s[..n];
    assert n < |s| ==> t[|b| + n] == s[n];
    assert |b| > 0 ==> t[|b| - 1] == b[|b| - 1];
  }

  lemma {:induction false} RestIsScanned(t: Text, b: Text, s: Text, ps: seq<Piece>) returns (b': Text, s': Text)
    requires SplitsInto(t, b, s) && ps != [] && ScanGives(b, s, ps)
    ensures SplitsInto(t, b', s') && ScanGives(b', s', ps[1..]) && |b'| == |b| + |Spell(ps[0])|
  {
    var n := |Spell(ps[0])|;
    b', s' := b + s[..n], s[n..];
    forall j | 0 <= j < |s'|
      ensures t[|b'| + j] == s'[j]
    {
      assert t[|b| + (n + j)] == s[n + j];
    }
  }

  lemma {:induction false} OffsetOfRest(ps: seq<Piece>, i: nat)
    requires 0 < i <= |ps|
    ensures Offset(ps, i) == |Spell(ps[0])| + Offset(ps[1..], i - 1)
  {
    assert ps == [ps[0]] + ps[1..];
    OffsetShifts(ps[0], ps[1..], i - 1);
  }

  lemma {:induction false} PieceIsMarked(t: Text, b: Text, s: Text, ps: seq<Piece>, i: nat, o: nat)
    requires SplitsInto(t, b, s) && ScanGives(b, s, ps) && i < |ps| && o == |b| + Offset(ps, i)
    ensures MarkedAt(t, o, ps[i])
    decreases i
  {
    if i == 0 {
      FirstIsMarked(t, b, s, ps);
    } else {
      var b', s' := RestIsScanned(t, b, s, ps);
      OffsetOfRest(ps, i);
      PieceIsMarked(t, b', s', ps[1..], i - 1, o);
    }
  }

  lemma {:induction false} SplitAtStart(t: Text)
    ensures SplitsInto(t, [], t)
  {
  }

  lemma {:induction false} MarkedFromStart(t: Text, ps: seq<Piece>, i: nat, o: nat)
    requires ScanGives([], t, ps) && i < |ps| && o == Offset(ps, i)
    ensures MarkedAt(t, o, ps[i])
  {
    SplitAtStart(t);
    PieceIsMarked(t, [], t, ps, i, o);
  }

  lemma {:induction false} ScanMarksRightly(t: Text, ps: seq<Piece>, i: nat)
    requires ScanGives([], t, ps) && i < |ps|
    ensures MarkedAt(t, |SpellAll(ps[..i])|, ps[i])
  {
    OffsetIsSpelled(ps, i);
    MarkedFromStart(t, ps, i, |SpellAll(ps[..i])|);
  }

  /** Each piece of a template is where the ones before it end, and a placeholder counts as surrounded exactly
      if it stands right between two quotes of the template. */
  lemma {:induction false} SurroundedExactly(t: Text)
    ensures var ps := Pieces(None, t);
      forall i :: 0 <= i < |ps| ==> MarkedAt(t, |SpellAll(ps[..i])|, ps[i])
  {
    PiecesAreScanned([], t);
    forall i | 0 <= i < |Pieces(None, t)|
      ensures MarkedAt(t, |SpellAll(Pieces(None, t)[..i])|, Pieces(None, t)[i])
    {
      ScanMarksRightly(t, Pieces(None, t), i);
    }
  }

  // ---------- Templates of quoted placeholders ----------

  /** A stretch of text without opening braces, or a placeholder between two quotes. */
  datatype Segment = Verbatim(text: Text) | QuotedHole(spelling: Text, key: Text)

  ghost predicate IsSegment(g: Segment, vars: Variables) {
    match g
    case Verbatim(text) => OPEN !in text
    case QuotedHole(w, key) => IsPlaceholder(w, key) && key in vars && vars[key].StringValue?
  }

  function Spelling(gs: seq<Segment>): Text {
    if gs == [] then []
    else (match gs[0]
          case Verbatim(text) => text
          case QuotedHole(w, _) => [QUOTE] + w + [QUOTE]) + Spelling(gs[1..])
  }

  /** The same text with the JSON of its value in place of each quoted placeholder. */
  ghost function WithValues(gs: seq<Segment>, vars: Variables): Text
    requires forall g :: g in gs ==> IsSegment(g, vars)
  {
    if gs == [] then []
    else
      assert IsSegment(gs[0], vars);
      (match gs[0]
       case Verbatim(text) => text
       case QuotedHole(_, key) => Quoted(vars[key].text)) + WithValues(gs[1..], vars)
  }

  lemma {:induction false} QuotedHoleRenders(prev: Option<CodeUnit>, w: Text, key: Text, rest: Text, vars: Variables)
    requires IsPlaceholder(w, key) && key in vars && vars[key].StringValue?
    ensures Render(prev, [QUOTE] + w + [QUOTE] + rest, vars)
         == Append(Quoted(vars[key].text), Render(Some(QUOTE), rest, vars))
  {
    var end := [QUOTE] + rest;
    var hole := w + end;
    var s := [QUOTE] + w + [QUOTE] + rest;
    PlaceholderMatches(w, key, end);
    assert s[1..] == hole && hole[|w|..] == end && hole[|w|] == QUOTE && end[1..] == rest;
    var v, out := vars[key].text, Render(Some(QUOTE), rest, vars);
    assert Render(Some(CLOSE), end, vars) == Append([QUOTE], out);
    assert Render(Some(QUOTE), hole, vars) == Append(Escape(v), Append([QUOTE], out));
    AppendTwice(Escape(v), [QUOTE], out);
    AppendTwice([QUOTE], Escape(v) + [QUOTE], out);
    assert Quoted(v) == [QUOTE] + (Escape(v) + [QUOTE]);
  }

  lemma {:induction false} VerbatimRenders(prev: Option<CodeUnit>, text: Text, rest: Text, vars: Variables)
    requires OPEN !in text
    ensures Render(prev, text + rest, vars)
         == Append(text, Render(if text == [] then prev else LastOf(text), rest, vars))
  {
    var s := text + rest;
    if text == [] {
      assert s == rest;
      var r := Render(prev, rest, vars);
      assert r.Ok? ==> [] + r.text == r.text;
    } else {
      assert s[|text|..] == rest && s[..|text|] == text;
      CopiedRun(prev, s, |text|, vars);
    }
  }

  /**
   * For every template made of text without opening braces and placeholders between quotes, and all string
   * variables, the rendered text is the template with the JSON of the value in place of each of them.
   */
  lemma {:induction false} QuotedPlaceholdersRender(prev: Option<CodeUnit>, gs: seq<Segment>, vars: Variables)
    requires forall g :: g in gs ==> IsSegment(g, vars)
    ensures Render(prev, Spelling(gs), vars) == Ok(WithValues(gs, vars))
    decreases |gs|
  {
    if gs != [] {
      assert IsSegment(gs[0], vars);
      var rest := Spelling(gs[1..]);
      match gs[0]
      case Verbatim(text) =>
        var last := if text == [] then prev else LastOf(text);
        QuotedPlaceholdersRender(last, gs[1..], vars);
        VerbatimRenders(prev, text, rest, vars);
      case QuotedHole(w, key) =>
        QuotedPlaceholdersRender(Some(QUOTE), gs[1..], vars);
        QuotedHoleRenders(prev, w, key, rest, vars);
    }
  }

  /** With every key present, rendering fails exactly when some placeholder's value has another type. */
  lemma {:induction false} RenderFailsExactlyOnOtherTypes(prev: Option<CodeUnit>, s: Text, vars: Variables)
    requires forall k :: k in Holes(s) ==> k in vars
    ensures Render(prev, s, vars).InvalidType? <==> exists k :: k in Holes(s) && vars[k].OtherType?
    decreases |s|
  {
    if s != [] {
      var m := MatchAt(s);
      if m.None? {
        RenderFailsExactlyOnOtherTypes(Some(s[0]), s[1..], vars);
      } else {
        RenderFailsExactlyOnOtherTypes(Some(CLOSE), s[m.value.len..], vars);
        assert m.value.key in Holes(s);
      }
    }
  }

  /** The replacement alone leaves a placeholder without a variable as it is. */
  lemma {:induction false} UnboundIsLeftAlone(prev: Option<CodeUnit>, s: Text, vars: Variables)
    requires forall k :: k in Holes(s) ==> k !in vars
    ensures Render(prev, s, vars) == Ok(s)
    decreases |s|
  {
    if s != [] {
      var m := MatchAt(s);
      if m.None? {
        UnboundIsLeftAlone(Some(s[0]), s[1..], vars);
        assert [s[0]] + s[1..] == s;
      } else {
        assert m.value.key in Holes(s);
        UnboundIsLeftAlone(Some(CLOSE), s[m.value.len..], vars);
        assert s[..m.value.len] + s[m.value.len..] == s;
      }
    }
  }

  // ---------- What the rendered text means ----------

  /** A character of a string literal of the template, or a placeholder in it. */
  datatype Part = Unit(unit: CodeUnit) | Inner(key: Text, surrounded: bool)

  /** The template seen as JSON: string literals with placeholders in them, placeholders
      outside literals, and single units. */
  datatype TemplateToken = Literal(parts: seq<Part>) | Bare(key: Text, surrounded: bool) | Plainly(unit: CodeUnit)

  datatype PartsBody = PartsBody(parts: seq<Part>, rest: Text)

  function PrependPart(p: Part, b: Option<PartsBody>): Option<PartsBody> {
    if b.Some? then Some(PartsBody([p] + b.value.parts, b.value.rest)) else None
  }

  /** Reads the body of a string literal of the template. */
  function ReadParts(prev: Option<CodeUnit>, s: Text): (b: Option<PartsBody>)
    ensures b.Some? ==> |b.value.rest| < |s|
    decreases |s|
  {
    var m := MatchAt(s);
    if m.Some? then
      PrependPart(Inner(m.value.key, Surrounded(prev, s, m.value.len)), ReadParts(Some(CLOSE), s[m.value.len..]))
    else if s != [] && s[0] == QUOTE then Some(PartsBody([], s[1..]))
    else
      var r := ReadUnit(s);
      if r.None? then None
      else PrependPart(Unit(r.value.unit), ReadParts(Some(s[r.value.len - 1]), s[r.value.len..]))
  }

  function ConsToken(t: TemplateToken, rest: Option<seq<TemplateToken>>): Option<seq<TemplateToken>> {
    if rest.Some? then Some([t] + rest.value) else None
  }

  /** Lexes a template; `None` when one of its string literals is malformed. */
  function LexTemplate(prev: Option<CodeUnit>, s: Text): Option<seq<TemplateToken>>
    decreases |s|
  {
    if s == [] then Some([])
    else
      var m := MatchAt(s);
      if m.Some? then
        ConsToken(Bare(m.value.key, Surrounded(prev, s, m.value.len)), LexTemplate(Some(CLOSE), s[m.value.len..]))
      else if s[0] == QUOTE then
        var b := ReadParts(Some(QUOTE), s[1..]);
        if b.None? then None else ConsToken(Literal(b.value.parts), LexTemplate(Some(QUOTE), b.value.rest))
      else ConsToken(Plainly(s[0]), LexTemplate(Some(s[0]), s[1..]))
  }

  predicate Usable(key: Text, vars: Variables) {
    key in vars && !vars[key].OtherType?
  }

  /** A placeholder in a literal has a value, and if that is a string the placeholder stands between quotes. */
  predicate PartFits(p: Part, vars: Variables) {
    p.Inner? ==> Usable(p.key, vars) && (vars[p.key].StringValue? ==> p.surrounded)
  }

  /** A placeholder outside literals has a value, and if that is a string it does not stand between quotes. */
  predicate TokenFits(t: TemplateToken, vars: Variables) {
    match t
    case Literal(parts) => forall p :: p in parts ==> PartFits(p, vars)
    case Bare(key, surrounded) => Usable(key, vars) && (vars[key].StringValue? ==> !surrounded)
    case Plainly(_) => true
  }

  predicate AllFit(ts: seq<TemplateToken>, vars: Variables) {
    forall t :: t in ts ==> TokenFits(t, vars)
  }

  /** A placeholder in a literal has a value. */
  predicate PartUsable(p: Part, vars: Variables) {
    p.Inner? ==> Usable(p.key, vars)
  }

  predicate PartsUsable(parts: seq<Part>, vars: Variables) {
    forall p :: p in parts ==> PartUsable(p, vars)
  }

  /** Every placeholder of the token has a value. */
  predicate TokenUsable(t: TemplateToken, vars: Variables) {
    match t
    case Literal(parts) => PartsUsable(parts, vars)
    case Bare(key, _) => Usable(key, vars)
    case Plainly(_) => true
  }

  predicate AllUsable(ts: seq<TemplateToken>, vars: Variables) {
    forall t :: t in ts ==> TokenUsable(t, vars)
  }

  lemma {:induction false} FittingIsUsable(ts: seq<TemplateToken>, vars: Variables)
    requires AllFit(ts, vars)
    ensures AllUsable(ts, vars)
  {
    forall t | t in ts
      ensures TokenUsable(t, vars)
    {
      assert TokenFits(t, vars);
      if t.Literal? {
        assert forall p :: p in t.parts ==> PartFits(p, vars) ==> PartUsable(p, vars);
      }
    }
  }

  /** What a value says inside a string literal. */
  function Reading(v: Value): Text
    requires !v.OtherType?
  {
    match v
    case StringValue(t) => t
    case PrintedValue(p) => p
  }

  function Splice(parts: seq<Part>, vars: Variables): Text
    requires PartsUsable(parts, vars)
  {
    if parts == [] then []
    else
      assert PartUsable(parts[0], vars);
      (match parts[0]
       case Unit(u) => [u]
       case Inner(key, _) => Reading(vars[key])) + Splice(parts[1..], vars)
  }

  function Meaning(t: TemplateToken, vars: Variables): seq<Token>
    requires TokenUsable(t, vars)
  {
    match t
    case Literal(parts) => [Str(Splice(parts, vars))]
    case Bare(key, _) =>
      (match vars[key]
       case StringValue(v) => [Str(v)]
       case PrintedValue(p) => Others(p))
    case Plainly(u) => [Other(u)]
  }

  /** The tokens of the template with its placeholders standing for their values. */
  function Meanings(ts: seq<TemplateToken>, vars: Variables): seq<Token>
    requires AllUsable(ts, vars)
  {
    if ts == [] then [] else Meaning(ts[0], vars) + Meanings(ts[1..], vars)
  }

  /** A replacement inside a literal reads as the value. */
  lemma {:induction false} ReplacementReads(v: Value, surrounded: bool, rest: Text)
    requires !v.OtherType? && (v.StringValue? ==> surrounded)
    ensures ReadBody(Replacement(v, surrounded) + rest) == Prepend(Reading(v), ReadBody(rest))
  {
    match v
    case StringValue(t) => EscapeRoundTrip(t, rest);
    case PrintedValue(p) => PlainReads(p, rest);
  }

  /** The rendered body of a literal reads as its parts with the values spliced in. */
  lemma {:induction false} BodyRenders(prev: Option<CodeUnit>, s: Text, vars: Variables, after: Text)
    requires ReadParts(prev, s).Some?
    requires forall p :: p in ReadParts(prev, s).value.parts ==> PartFits(p, vars)
    requires Render(Some(QUOTE), ReadParts(prev, s).value.rest, vars) == Ok(after)
    ensures Render(prev, s, vars).Ok?
    ensures PartsUsable(ReadParts(prev, s).value.parts, vars)
    ensures ReadBody(Render(prev, s, vars).text) == Some(Body(Splice(ReadParts(prev, s).value.parts, vars), after))
    decreases |s|
  {
    var b := ReadParts(prev, s).value;
    var m := MatchAt(s);
    if m.Some? {
      var n, key := m.value.len, m.value.key;
      assert b.parts[0] == Inner(key, Surrounded(prev, s, n));
      InnerRenders(prev, s, n, key, vars, after);
    } else if s[0] == QUOTE {
      assert ([QUOTE] + after)[1..] == after;
    } else {
      UnitRenders(prev, s, vars, after);
    }
  }

  lemma {:induction false} InnerRenders(
      prev: Option<CodeUnit>, s: Text, n: nat, key: Text, vars: Variables, after: Text)
    requires MatchAt(s) == Some(Match(key, n))
    requires ReadParts(prev, s).Some?
    requires forall p :: p in ReadParts(prev, s).value.parts ==> PartFits(p, vars)
    requires Render(Some(QUOTE), ReadParts(prev, s).value.rest, vars) == Ok(after)
    ensures Render(prev, s, vars).Ok?
    ensures PartsUsable(ReadParts(prev, s).value.parts, vars)
    ensures ReadBody(Render(prev, s, vars).text) == Some(Body(Splice(ReadParts(prev, s).value.parts, vars), after))
    decreases |s|, 0
  {
    var parts, tail := ReadParts(prev, s).value.parts, ReadParts(Some(CLOSE), s[n..]).value;
    assert parts == [Inner(key, Surrounded(prev, s, n))] + tail.parts;
    assert PartFits(parts[0], vars);
    assert forall p :: p in tail.parts ==> p in parts;
    BodyRenders(Some(CLOSE), s[n..], vars, after);
    ReplacementReads(vars[key], Surrounded(prev, s, n), Render(Some(CLOSE), s[n..], vars).text);
    assert parts[1..] == tail.parts;
  }

  lemma {:induction false} UnitRenders(prev: Option<CodeUnit>, s: Text, vars: Variables, after: Text)
    requires MatchAt(s).None? && ReadUnit(s).Some?
    requires ReadParts(prev, s).Some?
    requires forall p :: p in ReadParts(prev, s).value.parts ==> PartFits(p, vars)
    requires Render(Some(QUOTE), ReadParts(prev, s).value.rest, vars) == Ok(after)
    ensures Render(prev, s, vars).Ok?
    ensures PartsUsable(ReadParts(prev, s).value.parts, vars)
    ensures ReadBody(Render(prev, s, vars).text) == Some(Body(Splice(ReadParts(prev, s).value.parts, vars), after))
    decreases |s|, 0
  {
    var u, n := ReadUnit(s).value.unit, ReadUnit(s).value.len;
    var parts, tail := ReadParts(prev, s).value.parts, ReadParts(Some(s[n - 1]), s[n..]).value;
    assert parts == [Unit(u)] + tail.parts;
    assert forall p :: p in tail.parts ==> p in parts;
    BodyRenders(Some(s[n - 1]), s[n..], vars, after);
    var out := Render(Some(s[n - 1]), s[n..], vars).text;
    if n == 1 {
      assert s[..1] == [s[0]];
    } else {
      CopiedRun(prev, s, n, vars);
    }
    assert Render(prev, s, vars) == Ok(s[..n] + out);
    ReadUnitIsLocal(s, out);
    ReadBodyStep(s[..n], u, out);
    assert parts[1..] == tail.parts;
  }

  /** A placeholder outside literals renders to tokens of its value. */
  lemma {:induction false} BareLexes(v: Value, surrounded: bool, rest: Text)
    requires !v.OtherType? && (v.StringValue? ==> !surrounded)
    ensures Lex(Replacement(v, surrounded) + rest)
         == Cons(match v case StringValue(t) => [Str(t)] case PrintedValue(p) => Others(p), Lex(rest))
  {
    match v
    case StringValue(t) => QuotedLexes(t, rest);
    case PrintedValue(p) => PlainLexes(p, rest);
  }

  /**
   * For every template whose string literals are well formed and every set of
   * variables that fits it, lexing the rendered text gives the template's tokens
   * with each placeholder decoded to exactly its value; nothing else changes.
   * The fit asks that a string-valued placeholder stand between quotes when it is
   * inside a literal (`"{{ k }}"`) and not when it is outside.
   */
  lemma {:induction false} RenderingCommutesWithLexing(prev: Option<CodeUnit>, s: Text, vars: Variables)
    requires LexTemplate(prev, s).Some? && AllFit(LexTemplate(prev, s).value, vars)
    ensures Render(prev, s, vars).Ok?
    ensures AllUsable(LexTemplate(prev, s).value, vars)
    ensures Lex(Render(prev, s, vars).text) == Some(Meanings(LexTemplate(prev, s).value, vars))
    decreases |s|
  {
    FittingIsUsable(LexTemplate(prev, s).value, vars);
    if s != [] {
      var ts := LexTemplate(prev, s).value;
      assert TokenFits(ts[0], vars);
      var m := MatchAt(s);
      if m.Some? {
        var n, key := m.value.len, m.value.key;
        RenderingCommutesWithLexing(Some(CLOSE), s[n..], vars);
        BareLexes(vars[key], Surrounded(prev, s, n), Render(Some(CLOSE), s[n..], vars).text);
        assert ts[1..] == LexTemplate(Some(CLOSE), s[n..]).value;
      } else if s[0] == QUOTE {
        LiteralRenders(prev, s, vars);
      } else {
        RenderingCommutesWithLexing(Some(s[0]), s[1..], vars);
        assert ts[1..] == LexTemplate(Some(s[0]), s[1..]).value;
        var out := Render(Some(s[0]), s[1..], vars).text;
        assert ([s[0]] + out)[1..] == out;
      }
    }
  }

  lemma {:induction false} LiteralRenders(prev: Option<CodeUnit>, s: Text, vars: Variables)
    requires s != [] && s[0] == QUOTE
    requires LexTemplate(prev, s).Some? && AllFit(LexTemplate(prev, s).value, vars)
    ensures Render(prev, s, vars).Ok?
    ensures AllUsable(LexTemplate(prev, s).value, vars)
    ensures Lex(Render(prev, s, vars).text) == Some(Meanings(LexTemplate(prev, s).value, vars))
    decreases |s|, 0
  {
    var ts := LexTemplate(prev, s).value;
    FittingIsUsable(ts, vars);
    var b := ReadParts(Some(QUOTE), s[1..]).value;
    assert TokenFits(ts[0], vars) && ts[0] == Literal(b.parts);
    assert ts[1..] == LexTemplate(Some(QUOTE), b.rest).value;
    RenderingCommutesWithLexing(Some(QUOTE), b.rest, vars);
    var after := Render(Some(QUOTE), b.rest, vars).text;
    BodyRenders(Some(QUOTE), s[1..], vars, after);
    var out := Render(Some(QUOTE), s[1..], vars).text;
    assert Render(prev, s, vars) == Ok([QUOTE] + out);
    assert ([QUOTE] + out)[1..] == out;
  }

  /**
   * The fit is exact. Inside a literal a string value is read back if and only if
   * its placeholder stands between quotes: otherwise the value brings its own
   * quotes, and the first of them ends the literal.
   */
  lemma {:induction false} InsideALiteralQuotesAreNeeded(v: Text, surrounded: bool, rest: Text)
    ensures ReadBody(Replacement(StringValue(v), surrounded) + rest) == Prepend(v, ReadBody(rest)) <==> surrounded
  {
    if surrounded {
      EscapeRoundTrip(v, rest);
    } else {
      var after := Escape(v) + [QUOTE] + rest;
      assert Quoted(v) + rest == [QUOTE] + after;
      assert ([QUOTE] + after)[1..] == after;
      assert ReadBody(Quoted(v) + rest) == Some(Body([], after));
    }
  }

  /** Outside literals a string value becomes a literal of its own if and only if its placeholder
      does not stand between quotes. */
  lemma {:induction false} OutsideLiteralsQuotesAreWrong(v: Text, surrounded: bool, rest: Text)
    requires Lex(rest).Some?
    ensures Lex(Replacement(StringValue(v), surrounded) + rest) == Cons([Str(v)], Lex(rest)) <==> !surrounded
  {
    if !surrounded {
      QuotedLexes(v, rest);
    } else if v == [] {
      assert Escape(v) + rest == rest;
    } else {
      var s := Escape(v) + rest;
      assert s[0] == EscapeHead(v)[0] != QUOTE;
      assert Lex(s).Some? ==> Lex(s).value[0] == Other(s[0]);
      assert ([Str(v)] + Lex(rest).value)[0] == Str(v);
    }
  }

  // ---------- Rendering commutes only if the variables fit ----------

  /** A placeholder that does not fit has a value that is not empty. */
  predicate PartShows(p: Part, vars: Variables) {
    PartFits(p, vars) || (p.Inner? && Usable(p.key, vars) && Reading(vars[p.key]) != [])
  }

  predicate TokenShows(t: TemplateToken, vars: Variables) {
    match t
    case Literal(parts) => forall p :: p in parts ==> PartShows(p, vars)
    case Bare(key, _) => TokenFits(t, vars) || (Usable(key, vars) && Reading(vars[key]) != [])
    case Plainly(_) => true
  }

  predicate AllShow(ts: seq<TemplateToken>, vars: Variables) {
    forall t :: t in ts ==> TokenShows(t, vars)
  }

  lemma {:induction false} ShowingIsUsable(ts: seq<TemplateToken>, vars: Variables)
    requires AllShow(ts, vars)
    ensures AllUsable(ts, vars)
  {
    forall t | t in ts
      ensures TokenUsable(t, vars)
    {
      assert TokenShows(t, vars);
      if t.Literal? {
        PartsShowingAreUsable(t.parts, vars);
      }
    }
  }

  lemma {:induction false} PartsShowingAreUsable(parts: seq<Part>, vars: Variables)
    requires forall p :: p in parts ==> PartShows(p, vars)
    ensures PartsUsable(parts, vars)
  {
    forall p | p in parts
      ensures PartUsable(p, vars)
    {
      assert PartShows(p, vars);
    }
  }

  predicate PartsFit(parts: seq<Part>, vars: Variables) {
    forall p :: p in parts ==> PartFits(p, vars)
  }

  lemma {:induction false} PrependInjective(a: Text, b: Option<Body>, v: Text)
    requires Prepend(a, b).Some? && Prepend(a, b).value.value == a + v
    ensures b.Some? && b.value.value == v
  {
    assert (a + b.value.value)[|a|..] == b.value.value && (a + v)[|a|..] == v;
  }

  /** A body with a part that does not fit is not read back as its parts with the values spliced in. */
  lemma {:induction false} MisfitEndsTheBody(prev: Option<CodeUnit>, s: Text, vars: Variables)
    requires ReadParts(prev, s).Some? && Render(prev, s, vars).Ok?
    requires forall p :: p in ReadParts(prev, s).value.parts ==> PartShows(p, vars)
    requires !PartsFit(ReadParts(prev, s).value.parts, vars)
    ensures PartsUsable(ReadParts(prev, s).value.parts, vars)
    ensures var b := ReadBody(Render(prev, s, vars).text);
      b.Some? ==> b.value.value != Splice(ReadParts(prev, s).value.parts, vars)
    decreases |s|
  {
    var parts := ReadParts(prev, s).value.parts;
    PartsShowingAreUsable(parts, vars);
    var m := MatchAt(s);
    if m.Some? {
      MisfitAtAPlaceholder(prev, s, vars);
    } else if s[0] != QUOTE {
      MisfitAfterAUnit(prev, s, vars);
    }
  }

  lemma {:induction false} MisfitAtAPlaceholder(prev: Option<CodeUnit>, s: Text, vars: Variables)
    requires MatchAt(s).Some?
    requires ReadParts(prev, s).Some? && Render(prev, s, vars).Ok?
    requires forall p :: p in ReadParts(prev, s).value.parts ==> PartShows(p, vars)
    requires PartsUsable(ReadParts(prev, s).value.parts, vars)
    requires !PartsFit(ReadParts(prev, s).value.parts, vars)
    ensures var b := ReadBody(Render(prev, s, vars).text);
      b.Some? ==> b.value.value != Splice(ReadParts(prev, s).value.parts, vars)
    decreases |s|, 0
  {
    var n, key := MatchAt(s).value.len, MatchAt(s).value.key;
    var parts, tail := ReadParts(prev, s).value.parts, ReadParts(Some(CLOSE), s[n..]).value.parts;
    assert parts == [Inner(key, Surrounded(prev, s, n))] + tail && parts[1..] == tail;
    assert PartShows(parts[0], vars) && PartUsable(parts[0], vars);
    assert forall p :: p in tail ==> p in parts;
    var v, out := vars[key], Render(Some(CLOSE), s[n..], vars).text;
    var spliced := Splice(tail, vars);
    assert Splice(parts, vars) == Reading(v) + spliced;
    if PartFits(parts[0], vars) {
      assert !PartsFit(tail, vars);
      MisfitEndsTheBody(Some(CLOSE), s[n..], vars);
      ReplacementReads(v, Surrounded(prev, s, n), out);
      var b := ReadBody(Render(prev, s, vars).text);
      if b.Some? && b.value.value == Reading(v) + spliced {
        PrependInjective(Reading(v), ReadBody(out), spliced);
      }
    } else {
      UnsurroundedEndsTheBody(v.text, out);
    }
  }

  /** A string value that brings its own quotes ends the body of a literal at once. */
  lemma {:induction false} UnsurroundedEndsTheBody(v: Text, rest: Text)
    ensures ReadBody(Quoted(v) + rest).Some? && ReadBody(Quoted(v) + rest).value.value == []
  {
    var after := Escape(v) + [QUOTE] + rest;
    assert Quoted(v) + rest == [QUOTE] + after;
    assert ([QUOTE] + after)[1..] == after;
  }

  lemma {:induction false} MisfitAfterAUnit(prev: Option<CodeUnit>, s: Text, vars: Variables)
    requires MatchAt(s).None? && ReadUnit(s).Some? && s[0] != QUOTE
    requires ReadParts(prev, s).Some? && Render(prev, s, vars).Ok?
    requires forall p :: p in ReadParts(prev, s).value.parts ==> PartShows(p, vars)
    requires PartsUsable(ReadParts(prev, s).value.parts, vars)
    requires !PartsFit(ReadParts(prev, s).value.parts, vars)
    ensures var b := ReadBody(Render(prev, s, vars).text);
      b.Some? ==> b.value.value != Splice(ReadParts(prev, s).value.parts, vars)
    decreases |s|, 0
  {
    var u, n := ReadUnit(s).value.unit, ReadUnit(s).value.len;
    var parts, tail := ReadParts(prev, s).value.parts, ReadParts(Some(s[n - 1]), s[n..]).value.parts;
    assert parts == [Unit(u)] + tail && parts[1..] == tail;
    assert forall p :: p in tail ==> p in parts;
    UnitIsCopied(prev, s, vars);
    assert PartsFit(tail, vars) ==> PartsFit(parts, vars);
    MisfitEndsTheBody(Some(s[n - 1]), s[n..], vars);
    var out := Render(Some(s[n - 1]), s[n..], vars).text;
    ReadUnitIsLocal(s, out);
    ReadBodyStep(s[..n], u, out);
    var b := ReadBody(Render(prev, s, vars).text);
    if b.Some? && b.value.value == Splice(parts, vars) {
      PrependInjective([u], ReadBody(out), Splice(tail, vars));
    }
  }

  lemma {:induction false} UnitIsCopied(prev: Option<CodeUnit>, s: Text, vars: Variables)
    requires MatchAt(s).None? && ReadUnit(s).Some?
    ensures var n := ReadUnit(s).value.len;
      Render(prev, s, vars) == Append(s[..n], Render(Some(s[n - 1]), s[n..], vars))
  {
    if ReadUnit(s).value.len == 1 {
      assert s[..1] == [s[0]];
    } else {
      CopiedRun(prev, s, ReadUnit(s).value.len, vars);
    }
  }

  lemma {:induction false} ConsInjective(a: seq<Token>, l: Option<seq<Token>>, ms: seq<Token>)
    requires Cons(a, l) == Some(a + ms)
    ensures l == Some(ms)
  {
    assert (a + l.value)[|a|..] == l.value && (a + ms)[|a|..] == ms;
  }

  /** A rendered template in which some placeholder does not fit has other tokens than its meaning. */
  lemma {:induction false} MisfitShows(prev: Option<CodeUnit>, s: Text, vars: Variables)
    requires LexTemplate(prev, s).Some? && Render(prev, s, vars).Ok?
    requires AllShow(LexTemplate(prev, s).value, vars) && !AllFit(LexTemplate(prev, s).value, vars)
    ensures AllUsable(LexTemplate(prev, s).value, vars)
    ensures Lex(Render(prev, s, vars).text) != Some(Meanings(LexTemplate(prev, s).value, vars))
    decreases |s|, 1
  {
    ShowingIsUsable(LexTemplate(prev, s).value, vars);
    if s != [] {
      if MatchAt(s).Some? {
        MisfitAtABarePlaceholder(prev, s, vars);
      } else if s[0] == QUOTE {
        MisfitAtALiteral(prev, s, vars);
      } else {
        var ts, rest := LexTemplate(prev, s).value, LexTemplate(Some(s[0]), s[1..]).value;
        assert ts == [Plainly(s[0])] + rest && ts[1..] == rest;
        assert AllFit(rest, vars) ==> AllFit(ts, vars);
        MisfitShows(Some(s[0]), s[1..], vars);
        var out := Render(Some(s[0]), s[1..], vars).text;
        assert ([s[0]] + out)[1..] == out;
        if Lex([s[0]] + out) == Some(Meanings(ts, vars)) {
          ConsInjective([Other(s[0])], Lex(out), Meanings(rest, vars));
        }
      }
    }
  }

  lemma {:induction false} MisfitAtABarePlaceholder(prev: Option<CodeUnit>, s: Text, vars: Variables)
    requires MatchAt(s).Some?
    requires LexTemplate(prev, s).Some? && Render(prev, s, vars).Ok?
    requires AllShow(LexTemplate(prev, s).value, vars) && !AllFit(LexTemplate(prev, s).value, vars)
    requires AllUsable(LexTemplate(prev, s).value, vars)
    ensures Lex(Render(prev, s, vars).text) != Some(Meanings(LexTemplate(prev, s).value, vars))
    decreases |s|, 0
  {
    var n, key := MatchAt(s).value.len, MatchAt(s).value.key;
    var ts, rest := LexTemplate(prev, s).value, LexTemplate(Some(CLOSE), s[n..]).value;
    assert ts == [Bare(key, Surrounded(prev, s, n))] + rest && ts[1..] == rest;
    assert TokenShows(ts[0], vars) && TokenUsable(ts[0], vars);
    var v, out := vars[key], Render(Some(CLOSE), s[n..], vars).text;
    if TokenFits(ts[0], vars) {
      assert AllFit(rest, vars) ==> AllFit(ts, vars);
      MisfitShows(Some(CLOSE), s[n..], vars);
      BareLexes(v, Surrounded(prev, s, n), out);
      if Lex(Render(prev, s, vars).text) == Some(Meanings(ts, vars)) {
        ConsInjective(Meaning(ts[0], vars), Lex(out), Meanings(rest, vars));
      }
    } else {
      EscapedTextIsNoLiteral(v.text, out);
      assert Meanings(ts, vars)[0] == Str(v.text);
    }
  }

  /** Escaped text outside literals starts with a unit, not with a literal. */
  lemma {:induction false} EscapedTextIsNoLiteral(v: Text, rest: Text)
    requires v != []
    ensures var l := Lex(Escape(v) + rest);
      l.Some? ==> l.value != [] && l.value[0].Other?
  {
    var s := Escape(v) + rest;
    assert s[0] == EscapeHead(v)[0] != QUOTE;
  }

  lemma {:induction false} MisfitAtALiteral(prev: Option<CodeUnit>, s: Text, vars: Variables)
    requires s != [] && MatchAt(s).None? && s[0] == QUOTE
    requires LexTemplate(prev, s).Some? && Render(prev, s, vars).Ok?
    requires AllShow(LexTemplate(prev, s).value, vars) && !AllFit(LexTemplate(prev, s).value, vars)
    requires AllUsable(LexTemplate(prev, s).value, vars)
    ensures Lex(Render(prev, s, vars).text) != Some(Meanings(LexTemplate(prev, s).value, vars))
    decreases |s|, 0
  {
    var b := ReadParts(Some(QUOTE), s[1..]).value;
    var ts, rest := LexTemplate(prev, s).value, LexTemplate(Some(QUOTE), b.rest).value;
    assert ts == [Literal(b.parts)] + rest && ts[1..] == rest;
    assert TokenShows(ts[0], vars) && TokenUsable(ts[0], vars);
    var out := Render(Some(QUOTE), s[1..], vars).text;
    assert Render(prev, s, vars) == Ok([QUOTE] + out) && ([QUOTE] + out)[1..] == out;
    assert Meanings(ts, vars)[0] == Str(Splice(b.parts, vars));
    if PartsFit(b.parts, vars) {
      assert AllFit(rest, vars) ==> AllFit(ts, vars);
      RestRenders(Some(QUOTE), s[1..], vars);
      MisfitShows(Some(QUOTE), b.rest, vars);
      var after := Render(Some(QUOTE), b.rest, vars).text;
      BodyRenders(Some(QUOTE), s[1..], vars, after);
      if Lex([QUOTE] + out) == Some(Meanings(ts, vars)) {
        ConsInjective([Str(Splice(b.parts, vars))], Lex(after), Meanings(rest, vars));
      }
    } else {
      MisfitEndsTheBody(Some(QUOTE), s[1..], vars);
    }
  }

  /** If a text renders, so does what follows a literal of it. */
  lemma {:induction false} RestRenders(prev: Option<CodeUnit>, s: Text, vars: Variables)
    requires ReadParts(prev, s).Some? && Render(prev, s, vars).Ok?
    ensures Render(Some(QUOTE), ReadParts(prev, s).value.rest, vars).Ok?
    decreases |s|
  {
    var m := MatchAt(s);
    if m.Some? {
      RestRenders(Some(CLOSE), s[m.value.len..], vars);
    } else if s[0] != QUOTE {
      var n := ReadUnit(s).value.len;
      UnitIsCopied(prev, s, vars);
      RestRenders(Some(s[n - 1]), s[n..], vars);
    }
  }

  lemma {:induction false} UsableBodyRenders(prev: Option<CodeUnit>, s: Text, vars: Variables)
    requires ReadParts(prev, s).Some? && PartsUsable(ReadParts(prev, s).value.parts, vars)
    requires Render(Some(QUOTE), ReadParts(prev, s).value.rest, vars).Ok?
    ensures Render(prev, s, vars).Ok?
    decreases |s|
  {
    var parts := ReadParts(prev, s).value.parts;
    var m := MatchAt(s);
    if m.Some? {
      assert PartUsable(parts[0], vars);
      UsableBodyRenders(Some(CLOSE), s[m.value.len..], vars);
    } else if s[0] != QUOTE {
      var n := ReadUnit(s).value.len;
      UnitIsCopied(prev, s, vars);
      UsableBodyRenders(Some(s[n - 1]), s[n..], vars);
    }
  }

  /** A template whose placeholders all have usable values renders. */
  lemma {:induction false} UsableRenders(prev: Option<CodeUnit>, s: Text, vars: Variables)
    requires LexTemplate(prev, s).Some? && AllUsable(LexTemplate(prev, s).value, vars)
    ensures Render(prev, s, vars).Ok?
    decreases |s|
  {
    if s != [] {
      var ts := LexTemplate(prev, s).value;
      assert TokenUsable(ts[0], vars);
      assert forall u :: u in ts[1..] ==> u in ts;
      if MatchAt(s).Some? {
        var n := MatchAt(s).value.len;
        assert ts[1..] == LexTemplate(Some(CLOSE), s[n..]).value;
        UsableRenders(Some(CLOSE), s[n..], vars);
      } else if s[0] == QUOTE {
        var b := ReadParts(Some(QUOTE), s[1..]).value;
        assert ts[1..] == LexTemplate(Some(QUOTE), b.rest).value;
        UsableRenders(Some(QUOTE), b.rest, vars);
        UsableBodyRenders(Some(QUOTE), s[1..], vars);
      } else {
        assert ts[1..] == LexTemplate(Some(s[0]), s[1..]).value;
        UsableRenders(Some(s[0]), s[1..], vars);
      }
    }
  }

  /**
   * The converse over whole templates: if no placeholder that does not fit has an empty value, lexing the
   * rendered text gives the template's tokens with their values exactly if the variables fit.
   */
  lemma {:induction false} CommutesExactlyIfFitting(prev: Option<CodeUnit>, s: Text, vars: Variables)
    requires LexTemplate(prev, s).Some? && AllShow(LexTemplate(prev, s).value, vars)
    ensures AllUsable(LexTemplate(prev, s).value, vars) && Render(prev, s, vars).Ok?
    ensures Lex(Render(prev, s, vars).text) == Some(Meanings(LexTemplate(prev, s).value, vars))
      <==> AllFit(LexTemplate(prev, s).value, vars)
  {
    ShowingIsUsable(LexTemplate(prev, s).value, vars);
    UsableRenders(prev, s, vars);
    if AllFit(LexTemplate(prev, s).value, vars) {
      RenderingCommutesWithLexing(prev, s, vars);
    } else {
      MisfitShows(prev, s, vars);
    }
  }

  const KEY: Text := [0x6B]
  const HOLE: Text := [OPEN, OPEN, 0x6B, CLOSE, CLOSE]

  lemma {:induction false} HoleMatches(rest: Text)
    ensures MatchAt(HOLE + rest) == Some(Match(KEY, 5)) && (HOLE + rest)[5..] == rest
  {
    SpelledOutMatches([], KEY, [], rest);
    assert HOLE == [OPEN, OPEN] + Tail([], KEY, []);
  }

  /** Two literals with a placeholder between them, the first of which ends in one. */
  const AFTER_HOLE: Text := [QUOTE, QUOTE]
  const BETWEEN: Text := [QUOTE] + (HOLE + AFTER_HOLE)
  const BODY: Text := [0x78] + (HOLE + BETWEEN)
  const CANCELLING: Text := [QUOTE] + BODY

  const CANCELLING_TOKENS: seq<TemplateToken> :=
    [Literal([Unit(0x78), Inner(KEY, false)]), Bare(KEY, true), Literal([])]

  lemma {:induction false} CancellingLexes()
    ensures LexTemplate(None, CANCELLING) == Some(CANCELLING_TOKENS)
  {
    assert AFTER_HOLE[1..] == [QUOTE] && [QUOTE][1..] == [];
    assert ReadParts(Some(QUOTE), [QUOTE]) == Some(PartsBody([], []));
    assert [Literal([])] + [] == [Literal([])];
    assert LexTemplate(Some(CLOSE), AFTER_HOLE) == Some([Literal([])]);
    HoleMatches(AFTER_HOLE);
    assert (HOLE + AFTER_HOLE)[5] == QUOTE;
    assert [Bare(KEY, true)] + [Literal([])] == [Bare(KEY, true), Literal([])];
    assert LexTemplate(Some(QUOTE), HOLE + AFTER_HOLE) == Some([Bare(KEY, true), Literal([])]);
    assert BETWEEN[1..] == HOLE + AFTER_HOLE;
    assert ReadParts(Some(CLOSE), BETWEEN) == Some(PartsBody([], HOLE + AFTER_HOLE));
    HoleMatches(BETWEEN);
    assert [Inner(KEY, false)] + [] == [Inner(KEY, false)];
    assert ReadParts(Some(0x78), HOLE + BETWEEN) == Some(PartsBody([Inner(KEY, false)], HOLE + AFTER_HOLE));
    assert BODY[1..] == HOLE + BETWEEN;
    assert ReadUnit(BODY) == Some(UnitRead(0x78, 1));
    assert [Unit(0x78)] + [Inner(KEY, false)] == [Unit(0x78), Inner(KEY, false)];
    assert ReadParts(Some(QUOTE), BODY) == Some(PartsBody([Unit(0x78), Inner(KEY, false)], HOLE + AFTER_HOLE));
    assert CANCELLING[1..] == BODY;
    var parts := [Unit(0x78), Inner(KEY, false)];
    assert [Literal(parts)] + [Bare(KEY, true), Literal([])] == CANCELLING_TOKENS;
  }

  lemma {:induction false} CancellingRenders(vars: Variables)
    requires vars == map[KEY := StringValue([])]
    ensures Render(None, CANCELLING, vars) == Ok([QUOTE, 0x78, QUOTE, QUOTE, QUOTE, QUOTE, QUOTE])
  {
    assert Quoted([]) == [QUOTE, QUOTE] && Escape([]) == [];
    assert AFTER_HOLE[1..] == [QUOTE] && [QUOTE][1..] == [];
    assert Render(Some(QUOTE), [QUOTE], vars) == Ok([QUOTE]);
    assert Render(Some(CLOSE), AFTER_HOLE, vars) == Ok(AFTER_HOLE);
    HoleMatches(AFTER_HOLE);
    assert (HOLE + AFTER_HOLE)[5] == QUOTE;
    assert Render(Some(QUOTE), HOLE + AFTER_HOLE, vars) == Ok([] + AFTER_HOLE);
    assert BETWEEN[1..] == HOLE + AFTER_HOLE;
    assert Render(Some(CLOSE), BETWEEN, vars) == Ok([QUOTE, QUOTE, QUOTE]);
    HoleMatches(BETWEEN);
    assert Render(Some(0x78), HOLE + BETWEEN, vars) == Ok([QUOTE, QUOTE] + [QUOTE, QUOTE, QUOTE]);
    assert BODY[1..] == HOLE + BETWEEN && CANCELLING[1..] == BODY;
    assert Render(Some(QUOTE), BODY, vars) == Ok([0x78, QUOTE, QUOTE, QUOTE, QUOTE, QUOTE]);
  }

  lemma {:induction false} EmptyLiteralsLex()
    ensures Lex([QUOTE, 0x78, QUOTE, QUOTE, QUOTE, QUOTE, QUOTE]) == Some([Str([0x78]), Str([]), Str([])])
  {
    var one: Text := [QUOTE, QUOTE];
    var two: Text := [QUOTE, QUOTE, QUOTE, QUOTE];
    assert one[1..] == [QUOTE] && [QUOTE][1..] == [];
    assert [Str([])] + [] == [Str([])];
    assert ReadBody([QUOTE]) == Some(Body([], [])) && Lex(one) == Some([Str([])]);
    assert two[1..][1..] == one;
    assert [Str([])] + [Str([])] == [Str([]), Str([])];
    assert ReadBody(two[1..]) == Some(Body([], one)) && Lex(two) == Some([Str([]), Str([])]);
    var body: Text := [0x78, QUOTE, QUOTE, QUOTE, QUOTE, QUOTE];
    assert body[1..] == [QUOTE] + two && ([QUOTE] + two)[1..] == two;
    assert ReadBody([QUOTE] + two) == Some(Body([], two));
    PlainReads([0x78], [QUOTE] + two);
    assert body == [0x78] + ([QUOTE] + two);
    assert [0x78] + [] == [0x78];
    assert ReadBody(body) == Some(Body([0x78], two));
    assert [Str([0x78])] + [Str([]), Str([])] == [Str([0x78]), Str([]), Str([])];
    assert [QUOTE, 0x78, QUOTE, QUOTE, QUOTE, QUOTE, QUOTE][1..] == body;
  }

  lemma {:induction false} MeaningsCons(t: TemplateToken, ts: seq<TemplateToken>, vars: Variables)
    requires TokenUsable(t, vars) && AllUsable(ts, vars)
    ensures AllUsable([t] + ts, vars)
    ensures Meanings([t] + ts, vars) == Meaning(t, vars) + Meanings(ts, vars)
  {
    assert ([t] + ts)[1..] == ts;
  }

  lemma {:induction false} CancellingMeans(vars: Variables)
    requires vars == map[KEY := StringValue([])]
    ensures AllUsable(CANCELLING_TOKENS, vars)
    ensures Meanings(CANCELLING_TOKENS, vars) == [Str([0x78]), Str([]), Str([])]
  {
    var parts := [Unit(0x78), Inner(KEY, false)];
    assert parts[1..] == [Inner(KEY, false)] && parts[1..][1..] == [];
    assert Splice(parts[1..], vars) == [] + [];
    assert Splice(parts, vars) == [0x78] + [] == [0x78];
    var first, second, third := Literal(parts), Bare(KEY, true), Literal([]);
    MeaningsCons(third, [], vars);
    assert [third] + [] == [third] && Meanings([third], vars) == [Str([])] + [] == [Str([])];
    MeaningsCons(second, [third], vars);
    assert [second] + [third] == [second, third];
    assert Meanings([second, third], vars) == [Str([])] + [Str([])] == [Str([]), Str([])];
    MeaningsCons(first, [second, third], vars);
    assert [first] + [second, third] == CANCELLING_TOKENS;
    assert [Str([0x78])] + [Str([]), Str([])] == [Str([0x78]), Str([]), Str([])];
  }

  /** With empty values two misfits may cancel out: one adds an empty literal that the other leaves out. */
  lemma {:induction false} EmptyMisfitsMayCancel()
    ensures
      var vars := map[KEY := StringValue([])];
      var ts := CANCELLING_TOKENS;
      && LexTemplate(None, CANCELLING) == Some(ts) && AllUsable(ts, vars) && !AllFit(ts, vars)
      && Render(None, CANCELLING, vars).Ok?
      && Lex(Render(None, CANCELLING, vars).text) == Some(Meanings(ts, vars))
  {
    var vars: Variables := map[KEY := StringValue([])];
    CancellingLexes();
    CancellingRenders(vars);
    EmptyLiteralsLex();
    CancellingMeans(vars);
    assert CANCELLING_TOKENS[1] == Bare(KEY, true) && !TokenFits(CANCELLING_TOKENS[1], vars);
  }
}
