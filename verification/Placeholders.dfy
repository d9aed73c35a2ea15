/**
 * The placeholder pattern shared by both renderers,
 * `{{\s*([A-Za-z0-9_.-]+)\s*}}`, as a scanner, and its meaning.
 */
module Placeholders {
  import opened Wrappers
  import opened JsonText

  /** What `\s` matches. */
  predicate IsSpace(u: CodeUnit) {
    0x09 <= u <= 0x0D || u == 0x20 || u == 0xA0 || u == 0x1680 || 0x2000 <= u <= 0x200A
    || u == 0x2028 || u == 0x2029 || u == 0x202F || u == 0x205F || u == 0x3000 || u == 0xFEFF
  }

  /** What `[A-Za-z0-9_.-]` matches. */
  predicate IsKeyUnit(u: CodeUnit) {
    0x41 <= u <= 0x5A || 0x61 <= u <= 0x7A || 0x30 <= u <= 0x39 || u == 0x5F || u == 0x2E || u == 0x2D
  }

  /** In terms of characters: keys have letters, digits, and the signs `_`, `.` and `-`. */
  lemma {:induction false} KeyCharacters(c: char)
    requires c as int < 0x10000
    ensures IsKeyUnit(c as int)
      <==> 'A' <= c <= 'Z' || 'a' <= c <= 'z' || '0' <= c <= '9' || c == '_' || c == '.' || c == '-'
    ensures IsSpace(c as int) ==> c <= ' ' || c as int >= 0xA0
    ensures c == ' ' || c == '\t' || c == '\n' || c == '\r' ==> IsSpace(c as int)
  {
  }

  predicate AllSpace(t: Text) { forall i :: 0 <= i < |t| ==> IsSpace(t[i]) }

  predicate AllKey(t: Text) { forall i :: 0 <= i < |t| ==> IsKeyUnit(t[i]) }

  /** A match at the start of a text: the captured key and the length of the whole match. */
  datatype Match = Match(key: Text, len: nat)

  datatype Phase = Leading | InKey | Trailing

  /** Scans what follows `{{`: spaces, key, spaces, `}}`. */
  function ScanHole(p: Phase, s: Text): (m: Option<Match>)
    ensures m.Some? ==> 2 <= m.value.len <= |s|
    decreases |s|
  {
    if s == [] then None
    else if IsSpace(s[0]) then Skipped(ScanHole(if p == InKey then Trailing else p, s[1..]))
    else if IsKeyUnit(s[0]) && p != Trailing then Keyed(s[0], ScanHole(InKey, s[1..]))
    else if p != Leading && |s| > 1 && s[0] == CLOSE && s[1] == CLOSE then Some(Match([], 2))
    else None
  }

  function Skipped(m: Option<Match>): Option<Match> {
    if m.Some? then Some(Match(m.value.key, 1 + m.value.len)) else None
  }

  function Keyed(u: CodeUnit, m: Option<Match>): Option<Match> {
    if m.Some? then Some(Match([u] + m.value.key, 1 + m.value.len)) else None
  }

  /** The match that begins at the start of `s`, if any. */
  function MatchAt(s: Text): (m: Option<Match>)
    ensures m.Some? ==> 4 <= m.value.len <= |s| && s[0] == OPEN
  {
    if |s| >= 2 && s[0] == OPEN && s[1] == OPEN then
      var m := ScanHole(Leading, s[2..]);
      if m.Some? then Some(Match(m.value.key, m.value.len + 2)) else None
    else None
  }

  lemma {:induction false} ScannedUnits(p: Phase, s: Text)
    requires ScanHole(p, s).Some?
    ensures forall i :: 0 <= i < ScanHole(p, s).value.len ==> IsSpace(s[i]) || IsKeyUnit(s[i]) || s[i] == CLOSE
    decreases |s|
  {
    if IsSpace(s[0]) {
      ScannedUnits(if p == InKey then Trailing else p, s[1..]);
    } else if IsKeyUnit(s[0]) && p != Trailing {
      ScannedUnits(InKey, s[1..]);
    }
    assert forall i :: 0 < i < |s| ==> s[i] == s[1..][i - 1];
  }

  /** A match contains no quotes. */
  lemma {:induction false} MatchHasNoQuotes(s: Text)
    requires MatchAt(s).Some?
    ensures forall i :: 0 <= i < MatchAt(s).value.len ==> s[i] != QUOTE
  {
    ScannedUnits(Leading, s[2..]);
    assert forall i :: 2 <= i < |s| ==> s[i] == s[2..][i - 2];
  }

  /** After its opening braces a match has only spaces, key units and closing braces. */
  lemma {:induction false} MatchUnits(s: Text)
    requires MatchAt(s).Some?
    ensures forall i :: 2 <= i < MatchAt(s).value.len ==> IsSpace(s[i]) || IsKeyUnit(s[i]) || s[i] == CLOSE
  {
    ScannedUnits(Leading, s[2..]);
    assert forall i :: 2 <= i < |s| ==> s[i] == s[2..][i - 2];
  }

  // ---------- What the pattern means ----------

  /** `w` is spelled as the pattern says, with `key` in the capture group. */
  ghost predicate IsPlaceholder(w: Text, key: Text) {
    key != [] && AllKey(key) &&
    exists l: Text, t: Text :: AllSpace(l) && AllSpace(t) && w == [OPEN, OPEN] + Tail(l, key, t)
  }

  /** Everything of a placeholder after its opening braces. */
  function Tail(l: Text, key: Text, t: Text): Text {
    l + (key + (t + [CLOSE, CLOSE]))
  }

  const END: Text := [CLOSE, CLOSE]

  lemma {:induction false} ScanSpace(p: Phase, u: CodeUnit, x: Text)
    requires IsSpace(u)
    ensures ScanHole(p, [u] + x) == Skipped(ScanHole(if p == InKey then Trailing else p, x))
  {
    assert ([u] + x)[1..] == x;
  }

  lemma {:induction false} ScanKeyUnit(p: Phase, u: CodeUnit, x: Text)
    requires IsKeyUnit(u) && p != Trailing
    ensures ScanHole(p, [u] + x) == Keyed(u, ScanHole(InKey, x))
  {
    assert ([u] + x)[1..] == x;
  }

  lemma {:induction false} ScanClose(p: Phase, t: Text, x: Text)
    requires p != Leading && AllSpace(t)
    ensures ScanHole(p, t + (END + x)) == Some(Match([], |t| + 2))
    decreases |t|
  {
    if t == [] {
      assert t + (END + x) == END + x;
    } else {
      ScanClose(Trailing, t[1..], x);
      ScanSpace(p, t[0], t[1..] + (END + x));
      assert t + (END + x) == [t[0]] + (t[1..] + (END + x));
    }
  }

  lemma {:induction false} ScanKeyRun(key: Text, y: Text)
    requires AllKey(key) && ScanHole(InKey, y).Some? && ScanHole(InKey, y).value.key == []
    ensures ScanHole(InKey, key + y) == Some(Match(key, |key| + ScanHole(InKey, y).value.len))
  {
    if key == [] {
      assert key + y == y;
    } else {
      ScanKeyRun(key[1..], y);
      ScanKeyUnit(InKey, key[0], key[1..] + y);
      assert key + y == [key[0]] + (key[1..] + y);
      assert [key[0]] + key[1..] == key;
    }
  }

  lemma {:induction false} ScanSpaces(l: Text, y: Text)
    requires AllSpace(l) && ScanHole(Leading, y).Some?
    ensures var m := ScanHole(Leading, y).value;
      ScanHole(Leading, l + y) == Some(Match(m.key, |l| + m.len))
  {
    if l == [] {
      assert l + y == y;
    } else {
      ScanSpaces(l[1..], y);
      ScanSpace(Leading, l[0], l[1..] + y);
      assert l + y == [l[0]] + (l[1..] + y);
    }
  }

  lemma {:induction false} ScanKeyStart(key: Text, y: Text)
    requires AllKey(key) && key != [] && ScanHole(InKey, y).Some? && ScanHole(InKey, y).value.key == []
    ensures ScanHole(Leading, key + y) == Some(Match(key, |key| + ScanHole(InKey, y).value.len))
  {
    var u, k, n := key[0], key[1..], ScanHole(InKey, y).value.len;
    var after := ScanHole(InKey, k + y);
    assert after == Some(Match(k, |k| + n)) by {
      ScanKeyRun(k, y);
    }
    assert ScanHole(Leading, key + y) == Keyed(u, after) by {
      ScanKeyUnit(Leading, u, k + y);
      assert key + y == [u] + (k + y);
    }
    assert [u] + k == key;
  }

  lemma {:induction false} ScanLeading(l: Text, key: Text, t: Text, x: Text)
    requires AllSpace(l) && AllKey(key) && key != [] && AllSpace(t)
    ensures ScanHole(Leading, l + (key + (t + (END + x)))) == Some(Match(key, |l| + |key| + |t| + 2))
  {
    var y := t + (END + x);
    var z := key + y;
    assert ScanHole(InKey, y) == Some(Match([], |t| + 2)) by {
      ScanClose(InKey, t, x);
    }
    assert ScanHole(Leading, z) == Some(Match(key, |key| + |t| + 2)) by {
      ScanKeyStart(key, y);
    }
    assert ScanHole(Leading, l + z) == Some(Match(key, |l| + |key| + |t| + 2)) by {
      ScanSpaces(l, z);
    }
  }

  /** The first step of a successful scan. */
  lemma {:induction false} ScanStep(p: Phase, s: Text)
    requires ScanHole(p, s).Some?
    ensures var n := ScanHole(p, s).value.len;
      if IsSpace(s[0]) || (IsKeyUnit(s[0]) && p != Trailing)
      then s[..n] == [s[0]] + s[1..][..n - 1]
      else p != Leading && n == 2 && s[..n] == END && ScanHole(p, s).value.key == []
  {
  }

  lemma {:induction false} TrailingSplits(s: Text) returns (t: Text)
    requires ScanHole(Trailing, s).Some?
    ensures AllSpace(t) && s[..ScanHole(Trailing, s).value.len] == t + END
    ensures ScanHole(Trailing, s).value.key == []
    decreases |s|
  {
    ScanStep(Trailing, s);
    t := [];
    if IsSpace(s[0]) {
      var t' := TrailingSplits(s[1..]);
      t := [s[0]] + t';
      assert t + END == [s[0]] + (t' + END);
    }
  }

  lemma {:induction false} KeySplits(s: Text) returns (key: Text, t: Text)
    requires ScanHole(InKey, s).Some?
    ensures AllKey(key) && AllSpace(t) && s[..ScanHole(InKey, s).value.len] == key + (t + END)
    ensures ScanHole(InKey, s).value.key == key
    decreases |s|
  {
    ScanStep(InKey, s);
    key, t := [], [];
    if IsSpace(s[0]) {
      var t' := TrailingSplits(s[1..]);
      t := [s[0]] + t';
      assert key + (t + END) == [s[0]] + (t' + END);
    } else if IsKeyUnit(s[0]) {
      var k', t' := KeySplits(s[1..]);
      key, t := [s[0]] + k', t';
      assert key + (t + END) == [s[0]] + (k' + (t' + END));
    }
  }

  lemma {:induction false} ConsConcat(u: CodeUnit, a: Text, b: Text)
    ensures [u] + a + b == [u] + (a + b)
  {
  }

  lemma {:induction false} LeadingSplits(s: Text) returns (l: Text, key: Text, t: Text)
    requires ScanHole(Leading, s).Some?
    ensures AllSpace(l) && AllKey(key) && key != [] && AllSpace(t)
    ensures s[..ScanHole(Leading, s).value.len] == l + (key + (t + END))
    ensures ScanHole(Leading, s).value.key == key
    decreases |s|
  {
    ScanStep(Leading, s);
    if IsSpace(s[0]) {
      var l', k', t' := LeadingSplits(s[1..]);
      l, key, t := [s[0]] + l', k', t';
      ConsConcat(s[0], l', key + (t + END));
    } else {
      var k', t' := KeySplits(s[1..]);
      l, key, t := [], [s[0]] + k', t';
      ConsConcat(s[0], k', t' + END);
      assert l + (key + (t + END)) == key + (t + END);
    }
  }

  /** A spelled-out placeholder is matched whole, with its key, whatever follows it. */
  lemma {:induction false} PlaceholderMatches(w: Text, key: Text, rest: Text)
    requires IsPlaceholder(w, key)
    ensures MatchAt(w + rest) == Some(Match(key, |w|))
  {
    var l, t :| AllSpace(l) && AllSpace(t) && w == [OPEN, OPEN] + Tail(l, key, t);
    SpelledOutMatches(l, key, t, rest);
  }

  lemma {:induction false} SpelledOutMatches(l: Text, key: Text, t: Text, rest: Text)
    requires AllSpace(l) && AllKey(key) && key != [] && AllSpace(t)
    ensures var w := [OPEN, OPEN] + Tail(l, key, t);
      MatchAt(w + rest) == Some(Match(key, |w|))
  {
    ScanLeading(l, key, t, rest);
    var s := [OPEN, OPEN] + Tail(l, key, t) + rest;
    assert s[0] == OPEN && s[1] == OPEN && s[2..] == l + (key + (t + (END + rest)));
  }

  /** What is matched is a spelled-out placeholder. */
  lemma {:induction false} MatchIsPlaceholder(s: Text)
    requires MatchAt(s).Some?
    ensures IsPlaceholder(s[..MatchAt(s).value.len], MatchAt(s).value.key)
  {
    var l, key, t := LeadingSplits(s[2..]);
    var n := MatchAt(s).value.len;
    assert s[..n] == [OPEN, OPEN] + s[2..][..n - 2];
    assert s[..n] == [OPEN, OPEN] + Tail(l, key, t);
  }

  /**
   * The scanner finds the key and length of a match exactly when the text starts
   * with a spelling of the pattern; so the greedy scan needs no backtracking and
   * a match is unique.
   */
  lemma {:induction false} MatchesExactlyThePattern(s: Text, key: Text, n: nat)
    requires n <= |s|
    ensures MatchAt(s) == Some(Match(key, n)) <==> IsPlaceholder(s[..n], key)
  {
    if MatchAt(s) == Some(Match(key, n)) {
      MatchIsPlaceholder(s);
    }
    if IsPlaceholder(s[..n], key) {
      PlaceholderMatches(s[..n], key, s[n..]);
      assert s[..n] + s[n..] == s;
    }
  }

  /** The units after a match do not matter. */
  lemma {:induction false} MatchIsLocal(s: Text, x: Text)
    requires MatchAt(s).Some?
    ensures MatchAt(s[..MatchAt(s).value.len] + x) == MatchAt(s)
  {
    MatchIsPlaceholder(s);
    PlaceholderMatches(s[..MatchAt(s).value.len], MatchAt(s).value.key, x);
  }

  // ---------- Finding every match ----------

  /** The keys of the leftmost, non-overlapping matches, in order. */
  function Holes(s: Text): seq<Text>
    decreases |s|
  {
    if s == [] then []
    else
      var m := MatchAt(s);
      if m.Some? then [m.value.key] + Holes(s[m.value.len..]) else Holes(s[1..])
  }

  /** `ks` without repetitions, in order of first occurrence: insertion into a `Set`. */
  function Distinct(ks: seq<Text>): (ds: seq<Text>)
    ensures forall k :: k in ds <==> k in ks
  {
    if ks == [] then []
    else
      var ds := Distinct(ks[..|ks| - 1]);
      var k := ks[|ks| - 1];
      assert ks == ks[..|ks| - 1] + [k];
      if k in ds then ds else ds + [k]
  }

  predicate NoRepeats(ks: seq<Text>) {
    forall i, j :: 0 <= i < j < |ks| ==> ks[i] != ks[j]
  }

  lemma {:induction false} NoRepeatsExtends(ks: seq<Text>, k: Text)
    requires NoRepeats(ks) && k !in ks
    ensures NoRepeats(ks + [k])
  {
    forall i, j | 0 <= i < j < |ks + [k]|
      ensures (ks + [k])[i] != (ks + [k])[j]
    {
      if j == |ks| {
        assert ks[i] in ks;
      } else {
        assert ks[i] != ks[j];
      }
    }
  }

  lemma {:induction false} DistinctHasNoRepeats(ks: seq<Text>)
    ensures NoRepeats(Distinct(ks))
  {
    if ks != [] {
      var before, k := Distinct(ks[..|ks| - 1]), ks[|ks| - 1];
      DistinctHasNoRepeats(ks[..|ks| - 1]);
      if k !in before {
        NoRepeatsExtends(before, k);
      }
    }
  }

  lemma {:induction false} HolesSkip(s: Text, n: nat)
    requires n <= |s| && forall i :: 0 <= i < n ==> MatchAt(s[i..]).None?
    ensures Holes(s) == Holes(s[n..])
    decreases n
  {
    assert s[0..] == s;
    if n > 0 {
      assert MatchAt(s[0..]).None?;
      assert forall i :: 0 <= i < n - 1 ==> s[1..][i..] == s[i + 1..];
      HolesSkip(s[1..], n - 1);
      assert s[1..][n - 1..] == s[n..];
    }
  }

  /** No match begins inside another one. */
  lemma {:induction false} MatchesDoNotOverlap(s: Text)
    requires MatchAt(s).Some?
    ensures Holes(s[1..]) == Holes(s[MatchAt(s).value.len..])
  {
    var n := MatchAt(s).value.len;
    MatchUnits(s);
    forall i | 0 <= i < n - 1
      ensures MatchAt(s[1..][i..]).None?
    {
      var t := s[1..][i..];
      assert t[0] == s[i + 1];
      if i == 0 {
        assert t[1] == s[2];
      }
    }
    HolesSkip(s[1..], n - 1);
    assert s[1..][n - 1..] == s[n..];
  }

  /** How far the next match is, and that match: one call of `regex.exec`. */
  datatype Hit = Hit(skip: nat, found: Match)

  function Exec(s: Text): (h: Option<Hit>)
    ensures h.Some? ==> h.value.skip + h.value.found.len <= |s| && h.value.found.len > 0
    decreases |s|
  {
    if s == [] then None
    else if MatchAt(s).Some? then Some(Hit(0, MatchAt(s).value))
    else
      var h := Exec(s[1..]);
      if h.None? then None else Some(Hit(h.value.skip + 1, h.value.found))
  }

  /** `exec` finds the leftmost match. */
  lemma {:induction false} ExecIsLeftmost(s: Text)
    ensures Exec(s).None? ==> forall i :: 0 <= i < |s| ==> MatchAt(s[i..]).None?
    ensures Exec(s).Some? ==> MatchAt(s[Exec(s).value.skip..]) == Some(Exec(s).value.found)
    ensures Exec(s).Some? ==> forall i :: 0 <= i < Exec(s).value.skip ==> MatchAt(s[i..]).None?
    decreases |s|
  {
    if s != [] {
      assert s[0..] == s;
      if MatchAt(s).None? {
        ExecIsLeftmost(s[1..]);
        assert forall i :: 0 < i <= |s| ==> s[i..] == s[1..][i - 1..];
      }
    }
  }

  /** `exec` finds the first of the matches that the scan lists. */
  lemma {:induction false} ExecFindsNextHole(s: Text)
    ensures Exec(s).None? ==> Holes(s) == []
    ensures Exec(s).Some? ==>
      var h := Exec(s).value;
      Holes(s) == [h.found.key] + Holes(s[h.skip + h.found.len..])
    decreases |s|
  {
    if s != [] && MatchAt(s).None? {
      ExecFindsNextHole(s[1..]);
      if Exec(s).Some? {
        var n := Exec(s).value.skip + Exec(s).value.found.len;
        assert s[n..] == s[1..][n - 1..];
      }
    }
  }

  lemma {:induction false} DistinctExtends(ks: seq<Text>, k: Text)
    ensures Distinct(ks + [k]) == if k in Distinct(ks) then Distinct(ks) else Distinct(ks) + [k]
  {
    assert (ks + [k])[..|ks|] == ks;
  }

  lemma {:induction false} MoveHole(seen: seq<Text>, k: Text, rest: seq<Text>)
    ensures seen + ([k] + rest) == (seen + [k]) + rest
  {
  }

  method CollectPlaceholders(template: Text) returns (keys: seq<Text>)
    ensures keys == Distinct(Holes(template))
  {
    keys := [];
    var rest := template;
    ghost var seen: seq<Text> := [];
    var hit := Exec(rest);
    while hit.Some?
      invariant hit == Exec(rest)
      invariant Holes(template) == seen + Holes(rest)
      invariant keys == Distinct(seen)
      decreases |rest|
    {
      var k := hit.value.found.key;
      var next := rest[hit.value.skip + hit.value.found.len..];
      ExecFindsNextHole(rest);
      DistinctExtends(seen, k);
      MoveHole(seen, k, Holes(next));
      rest := next;
      seen := seen + [k];
      if k !in keys {
        keys := keys + [k];
      }
      hit := Exec(rest);
    }
    ExecFindsNextHole(rest);
    assert seen + [] == seen;
  }
}
