/**
 * Text as the JavaScript engine holds it (a sequence of UTF-16 code units), the
 * string escaping done by `JSON.stringify`, and the reader of JSON string
 * literals of section 7 of RFC 8259.
 */
module JsonText {
  import opened Wrappers

  type CodeUnit = n: int | 0 <= n < 0x1_0000
  type Text = seq<CodeUnit>

  const QUOTE: CodeUnit := 0x22
  const SLASH: CodeUnit := 0x2F
  const BACKSLASH: CodeUnit := 0x5C
  const OPEN: CodeUnit := 0x7B   // {
  const CLOSE: CodeUnit := 0x7D  // }

  // Letters that may follow a backslash.
  const LOWER_B: CodeUnit := 0x62
  const LOWER_F: CodeUnit := 0x66
  const LOWER_N: CodeUnit := 0x6E
  const LOWER_R: CodeUnit := 0x72
  const LOWER_T: CodeUnit := 0x74
  const LOWER_U: CodeUnit := 0x75

  predicate IsLead(u: CodeUnit) { 0xD800 <= u < 0xDC00 }

  predicate IsTrail(u: CodeUnit) { 0xDC00 <= u < 0xE000 }

  // ---------- Escaping ----------

  /** The lower-case hexadecimal digit of `d`. */
  function HexDigit(d: int): CodeUnit
    requires 0 <= d < 16
  {
    if d < 10 then 0x30 + d else 0x61 + (d - 10)
  }

  /** The six-unit escape of an arbitrary code unit. */
  function UnicodeEscape(u: CodeUnit): (t: Text)
    ensures |t| == 6
  {
    [BACKSLASH, LOWER_U, HexDigit(u / 0x1000), HexDigit(u / 0x100 % 16), HexDigit(u / 16 % 16), HexDigit(u % 16)]
  }

  /** How a code unit that is not part of a surrogate pair is written. */
  function EscapeUnit(u: CodeUnit): (t: Text)
    ensures |t| > 0 && t[0] != QUOTE
  {
    if u == 0x08 then [BACKSLASH, LOWER_B]
    else if u == 0x09 then [BACKSLASH, LOWER_T]
    else if u == 0x0A then [BACKSLASH, LOWER_N]
    else if u == 0x0C then [BACKSLASH, LOWER_F]
    else if u == 0x0D then [BACKSLASH, LOWER_R]
    else if u == QUOTE || u == BACKSLASH then [BACKSLASH, u]
    else if u < 0x20 || IsLead(u) || IsTrail(u) then UnicodeEscape(u)
    else [u]
  }

  /** Which units are written as themselves, and how long the escapes of the others are. */
  lemma {:induction false} EscapeIsStandard(u: CodeUnit)
    ensures var t := EscapeUnit(u);
      && (|t| == 1 <==> u >= ' ' as int && u != '"' as int && u != '\\' as int && !(0xD800 <= u < 0xE000))
      && (|t| == 1 ==> t == [u])
      && (|t| == 2 <==> u == 8 || u == '\t' as int || u == '\n' as int || u == 12 || u == '\r' as int
                        || u == '"' as int || u == '\\' as int)
      && (|t| == 2 || |t| == 6 ==> t[0] == '\\' as int)
      && (|t| == 1 || |t| == 2 || |t| == 6)
      && forall i :: 0 <= i < |t| && |t| == 6 ==> !('A' as int <= t[i] <= 'Z' as int)
  {
  }

  /** How many units the first character of `s` has: a surrogate pair is kept together. */
  function HeadLen(s: Text): (n: nat)
    requires s != []
    ensures 0 < n <= |s|
  {
    if |s| > 1 && IsLead(s[0]) && IsTrail(s[1]) then 2 else 1
  }

  function EscapeHead(s: Text): Text
    requires s != []
  {
    if HeadLen(s) == 2 then s[..2] else EscapeUnit(s[0])
  }

  /** `JSON.stringify(s)` without the enclosing quotes. */
  function Escape(s: Text): Text {
    if s == [] then [] else EscapeHead(s) + Escape(s[HeadLen(s)..])
  }

  /** `JSON.stringify(s)` of a string. */
  function Quoted(s: Text): Text {
    [QUOTE] + Escape(s) + [QUOTE]
  }

  // ---------- Reading ----------

  function HexValue(u: CodeUnit): (d: int)
    ensures -1 <= d < 16
  {
    if 0x30 <= u <= 0x39 then u - 0x30
    else if 0x41 <= u <= 0x46 then u - 0x41 + 10
    else if 0x61 <= u <= 0x66 then u - 0x61 + 10
    else -1
  }

  /** One character of a string body and the number of units it occupies. */
  datatype UnitRead = UnitRead(unit: CodeUnit, len: nat)

  function ReadHex(a: CodeUnit, b: CodeUnit, c: CodeUnit, d: CodeUnit): (r: Option<UnitRead>)
    ensures r.Some? ==> r.value.len == 6 && a != OPEN && b != OPEN && c != OPEN && d != OPEN
  {
    if HexValue(a) < 0 || HexValue(b) < 0 || HexValue(c) < 0 || HexValue(d) < 0 then None
    else Some(UnitRead(HexValue(a) * 0x1000 + HexValue(b) * 0x100 + HexValue(c) * 16 + HexValue(d), 6))
  }

  function ReadEscape(s: Text): (r: Option<UnitRead>)
    requires |s| > 0 && s[0] == BACKSLASH
    ensures r.Some? ==> 1 < r.value.len <= |s| && forall i :: 0 <= i < r.value.len ==> s[i] != OPEN
  {
    if |s| < 2 then None
    else if s[1] == QUOTE || s[1] == BACKSLASH || s[1] == SLASH then Some(UnitRead(s[1], 2))
    else if s[1] == LOWER_B then Some(UnitRead(0x08, 2))
    else if s[1] == LOWER_T then Some(UnitRead(0x09, 2))
    else if s[1] == LOWER_N then Some(UnitRead(0x0A, 2))
    else if s[1] == LOWER_F then Some(UnitRead(0x0C, 2))
    else if s[1] == LOWER_R then Some(UnitRead(0x0D, 2))
    else if s[1] == LOWER_U && |s| >= 6 then ReadHex(s[2], s[3], s[4], s[5])
    else None
  }

  /** Reads one character of a string body; `None` at a quote, a control character or a bad escape. */
  function ReadUnit(s: Text): (r: Option<UnitRead>)
    ensures r.Some? ==> 0 < r.value.len <= |s|
    ensures r.Some? && r.value.len > 1 ==> forall i :: 0 <= i < r.value.len ==> s[i] != OPEN
  {
    if s == [] || s[0] == QUOTE || s[0] < 0x20 then None
    else if s[0] == BACKSLASH then ReadEscape(s)
    else Some(UnitRead(s[0], 1))
  }

  /** The decoded contents of a string literal and the text after its closing quote. */
  datatype Body = Body(value: Text, rest: Text)

  function Prepend(v: Text, b: Option<Body>): Option<Body> {
    if b.Some? then Some(Body(v + b.value.value, b.value.rest)) else None
  }

  /** Reads a string body up to its first unescaped quote. */
  function ReadBody(s: Text): (b: Option<Body>)
    ensures b.Some? ==> |b.value.rest| < |s|
  {
    if s == [] then None
    else if s[0] == QUOTE then Some(Body([], s[1..]))
    else
      var r := ReadUnit(s);
      if r.None? then None else Prepend([r.value.unit], ReadBody(s[r.value.len..]))
  }

  // ---------- Reading undoes escaping ----------

  /** Only the units a character occupies decide how it is read. */
  lemma {:induction false} ReadUnitIsLocal(s: Text, x: Text)
    requires ReadUnit(s).Some?
    ensures ReadUnit(s[..ReadUnit(s).value.len] + x) == ReadUnit(s)
  {
  }

  lemma {:induction false} DigitsAddUp(u: int)
    ensures u == u / 0x1000 * 0x1000 + u / 0x100 % 16 * 0x100 + u / 16 % 16 * 16 + u % 16
  {
    assert u / 0x100 == u / 16 / 16;
    assert u / 0x1000 == u / 0x100 / 16;
  }

  lemma {:induction false} HexQuadReads(a: int, b: int, c: int, d: int)
    requires 0 <= a < 16 && 0 <= b < 16 && 0 <= c < 16 && 0 <= d < 16
    ensures ReadHex(HexDigit(a), HexDigit(b), HexDigit(c), HexDigit(d))
         == Some(UnitRead(a * 0x1000 + b * 0x100 + c * 16 + d, 6))
  {
  }

  lemma {:induction false} UnicodeEscapeReads(u: CodeUnit, rest: Text)
    ensures ReadEscape(UnicodeEscape(u) + rest) == Some(UnitRead(u, 6))
  {
    DigitsAddUp(u);
    HexQuadReads(u / 0x1000, u / 0x100 % 16, u / 16 % 16, u % 16);
    var e := UnicodeEscape(u);
    assert forall i :: 0 <= i < 6 ==> (e + rest)[i] == e[i];
  }

  lemma {:induction false} EscapeUnitReads(u: CodeUnit, rest: Text)
    ensures ReadUnit(EscapeUnit(u) + rest) == Some(UnitRead(u, |EscapeUnit(u)|))
  {
    var e := EscapeUnit(u);
    var t := e + rest;
    assert t[0] == e[0];
    if |e| == 6 {
      UnicodeEscapeReads(u, rest);
    } else if |e| == 2 {
      assert t[1] == e[1];
    }
  }

  lemma {:induction false} PrependTwice(a: Text, c: Text, b: Option<Body>)
    ensures Prepend(a, Prepend(c, b)) == Prepend(a + c, b)
  {
    if b.Some? {
      assert a + (c + b.value.value) == a + c + b.value.value;
    }
  }

  lemma {:induction false} ReadBodyStep(e: Text, u: CodeUnit, rest: Text)
    requires e != [] && e[0] != QUOTE && ReadUnit(e + rest) == Some(UnitRead(u, |e|))
    ensures ReadBody(e + rest) == Prepend([u], ReadBody(rest))
  {
    assert (e + rest)[|e|..] == rest;
  }

  lemma {:induction false} EscapedUnitReads(u: CodeUnit, tail: Text)
    ensures ReadBody(EscapeUnit(u) + tail) == Prepend([u], ReadBody(tail))
  {
    EscapeUnitReads(u, tail);
    ReadBodyStep(EscapeUnit(u), u, tail);
  }

  lemma {:induction false} SurrogatePairReads(s: Text, tail: Text)
    requires |s| > 1 && IsLead(s[0]) && IsTrail(s[1])
    ensures ReadBody(s[..2] + tail) == Prepend(s[..2], ReadBody(tail))
  {
    ReadBodyStep([s[1]], s[1], tail);
    ReadBodyStep([s[0]], s[0], [s[1]] + tail);
    PrependTwice([s[0]], [s[1]], ReadBody(tail));
    assert s[..2] + tail == [s[0]] + ([s[1]] + tail);
    assert s[..2] == [s[0]] + [s[1]];
  }

  lemma {:induction false} EscapeHeadReads(s: Text, tail: Text)
    requires s != []
    ensures ReadBody(EscapeHead(s) + tail) == Prepend(s[..HeadLen(s)], ReadBody(tail))
  {
    if HeadLen(s) == 2 {
      SurrogatePairReads(s, tail);
    } else {
      EscapedUnitReads(s[0], tail);
      assert s[..1] == [s[0]];
    }
  }

  lemma {:induction false} PrependNothing(b: Option<Body>)
    ensures Prepend([], b) == b
  {
    if b.Some? {
      assert [] + b.value.value == b.value.value;
    }
  }

  lemma {:induction false} EscapeSplits(s: Text, rest: Text)
    requires s != []
    ensures Escape(s) + rest == EscapeHead(s) + (Escape(s[HeadLen(s)..]) + rest)
  {
  }

  lemma {:induction false} PrependParts(s: Text, n: nat, b: Option<Body>)
    requires n <= |s|
    ensures Prepend(s[..n], Prepend(s[n..], b)) == Prepend(s, b)
  {
    PrependTwice(s[..n], s[n..], b);
    assert s[..n] + s[n..] == s;
  }

  /**
   * Escaped text in front of `rest` contributes exactly the original text and
   * leaves the reader at `rest`, whatever `rest` is: no value can close its
   * literal early or swallow what follows.
   */
  lemma {:induction false} EscapeRoundTrip(s: Text, rest: Text)
    ensures ReadBody(Escape(s) + rest) == Prepend(s, ReadBody(rest))
  {
    if s == [] {
      assert Escape(s) + rest == rest;
      PrependNothing(ReadBody(rest));
    } else {
      var n := HeadLen(s);
      EscapeRoundTrip(s[n..], rest);
      EscapeHeadReads(s, Escape(s[n..]) + rest);
      PrependParts(s, n, ReadBody(rest));
      EscapeSplits(s, rest);
    }
  }

  lemma {:induction false} ClosingReads(v: Text, rest: Text)
    ensures Prepend(v, ReadBody([QUOTE] + rest)) == Some(Body(v, rest))
  {
    assert ([QUOTE] + rest)[1..] == rest && v + [] == v;
  }

  /** A stringified text is read back, with the reader left at what follows. */
  lemma {:induction false} QuotedReads(v: Text, rest: Text)
    ensures var t := Quoted(v) + rest;
      t[0] == QUOTE && ReadBody(t[1..]) == Some(Body(v, rest))
  {
    var body := Escape(v) + ([QUOTE] + rest);
    EscapeRoundTrip(v, [QUOTE] + rest);
    ClosingReads(v, rest);
    assert Quoted(v) + rest == [QUOTE] + body;
    assert ([QUOTE] + body)[1..] == body;
  }

  /** Text that a string body shows as itself. */
  predicate IsPlain(t: Text) {
    forall i :: 0 <= i < |t| ==> t[i] >= 0x20 && t[i] != QUOTE && t[i] != BACKSLASH
  }

  lemma {:induction false} PlainReads(t: Text, rest: Text)
    requires IsPlain(t)
    ensures ReadBody(t + rest) == Prepend(t, ReadBody(rest))
  {
    if t == [] {
      assert t + rest == rest;
      PrependNothing(ReadBody(rest));
    } else {
      PlainReads(t[1..], rest);
      ReadBodyStep([t[0]], t[0], t[1..] + rest);
      PrependTwice([t[0]], t[1..], ReadBody(rest));
      assert t + rest == [t[0]] + (t[1..] + rest);
      assert [t[0]] + t[1..] == t;
    }
  }

  // ---------- Lexing a whole text ----------

  /** A JSON text seen as decoded string literals and single units between them. */
  datatype Token = Str(value: Text) | Other(unit: CodeUnit)

  function Cons(toks: seq<Token>, rest: Option<seq<Token>>): Option<seq<Token>> {
    if rest.Some? then Some(toks + rest.value) else None
  }

  /** `None` when some string literal is malformed or unterminated. */
  function Lex(s: Text): Option<seq<Token>>
    decreases |s|
  {
    if s == [] then Some([])
    else if s[0] == QUOTE then
      var b := ReadBody(s[1..]);
      if b.None? then None else Cons([Str(b.value.value)], Lex(b.value.rest))
    else Cons([Other(s[0])], Lex(s[1..]))
  }

  function Others(t: Text): (toks: seq<Token>)
    ensures |toks| == |t| && forall i :: 0 <= i < |t| ==> toks[i] == Other(t[i])
  {
    seq(|t|, i requires 0 <= i < |t| => Other(t[i]))
  }

  lemma {:induction false} ConsTwice(a: seq<Token>, c: seq<Token>, rest: Option<seq<Token>>)
    ensures Cons(a, Cons(c, rest)) == Cons(a + c, rest)
  {
    if rest.Some? {
      assert a + (c + rest.value) == a + c + rest.value;
    }
  }

  lemma {:induction false} PlainLexes(t: Text, rest: Text)
    requires IsPlain(t)
    ensures Lex(t + rest) == Cons(Others(t), Lex(rest))
  {
    if t == [] {
      assert t + rest == rest;
      if Lex(rest).Some? {
        assert Others(t) + Lex(rest).value == Lex(rest).value;
      }
    } else {
      ConsTwice([Other(t[0])], Others(t[1..]), Lex(rest));
      PlainLexes(t[1..], rest);
      assert (t + rest)[1..] == t[1..] + rest;
      assert [Other(t[0])] + Others(t[1..]) == Others(t);
    }
  }

  lemma {:induction false} LiteralLexes(t: Text, v: Text, rest: Text)
    requires t != [] && t[0] == QUOTE && ReadBody(t[1..]) == Some(Body(v, rest))
    ensures Lex(t) == Cons([Str(v)], Lex(rest))
  {
  }

  lemma {:induction false} QuotedLexes(v: Text, rest: Text)
    ensures Lex(Quoted(v) + rest) == Cons([Str(v)], Lex(rest))
  {
    QuotedReads(v, rest);
    LiteralLexes(Quoted(v) + rest, v, rest);
  }
}
