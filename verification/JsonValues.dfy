/**
 * JSON values, how they print without spaces (`JSON.stringify`), and a reader that
 * finds in the printed text exactly the value (RFC 8259, sections 3 to 7).
 */
module JsonValues {
  import opened Wrappers
  import opened JsonText

  /** A unit of a printed number: a digit, or one of `+ - . e`. */
  predicate IsNumberUnit(u: CodeUnit) {
    0x30 <= u <= 0x39 || u == 0x2B || u == 0x2D || u == 0x2E || u == 0x65
  }

  predicate StartsNumber(u: CodeUnit) {
    0x30 <= u <= 0x39 || u == 0x2D
  }

  /** How a number prints. */
  type NumberText = t: Text | t != [] && StartsNumber(t[0]) && forall i :: 0 <= i < |t| ==> IsNumberUnit(t[i])
    witness [0x30]

  datatype Member = Member(name: Text, value: Json)

  /** A value as read by `JSON.parse`. */
  datatype Json =
    | Null
    | Bool(b: bool)
    | Num(digits: NumberText)
    | String(text: Text)
    | Arr(items: seq<Json>)
    | Obj(members: seq<Member>)

  const COMMA: CodeUnit := 0x2C
  const COLON: CodeUnit := 0x3A
  const START_ARRAY: CodeUnit := 0x5B
  const END_ARRAY: CodeUnit := 0x5D
  const NULL_TEXT: Text := [0x6E, 0x75, 0x6C, 0x6C]
  const TRUE_TEXT: Text := [0x74, 0x72, 0x75, 0x65]
  const FALSE_TEXT: Text := [0x66, 0x61, 0x6C, 0x73, 0x65]

  // ---------- Printing ----------

  /** `JSON.stringify(v)`. */
  function Stringify(v: Json): Text
    decreases v, 1
  {
    match v
    case Null => NULL_TEXT
    case Bool(b) => if b then TRUE_TEXT else FALSE_TEXT
    case Num(digits) => digits
    case String(text) => Quoted(text)
    case Arr(items) => [START_ARRAY] + JoinItems(items) + [END_ARRAY]
    case Obj(members) => [OPEN] + JoinMembers(members) + [CLOSE]
  }

  function JoinItems(items: seq<Json>): Text
    decreases items, 0
  {
    if items == [] then []
    else Stringify(items[0]) + (if |items| == 1 then [] else [COMMA] + JoinItems(items[1..]))
  }

  function JoinMembers(members: seq<Member>): Text
    decreases members, 0
  {
    if members == [] then []
    else
      Quoted(members[0].name) + [COLON] + Stringify(members[0].value)
      + (if |members| == 1 then [] else [COMMA] + JoinMembers(members[1..]))
  }

  // ---------- Reading ----------

  datatype ValueRead = ValueRead(value: Json, rest: Text)

  datatype ItemsRead = ItemsRead(items: seq<Json>, rest: Text)

  datatype MembersRead = MembersRead(members: seq<Member>, rest: Text)

  predicate StartsWith(t: Text, start: Text) {
    |start| <= |t| && t[..|start|] == start
  }

  function NumberLength(t: Text): (n: nat)
    ensures n <= |t| && forall i :: 0 <= i < n ==> IsNumberUnit(t[i])
  {
    if t == [] || !IsNumberUnit(t[0]) then 0 else 1 + NumberLength(t[1..])
  }

  /** Reads the value at the start of a text. */
  function ReadValue(t: Text): (r: Option<ValueRead>)
    ensures r.Some? ==> |r.value.rest| < |t|
    decreases |t|, 0
  {
    if t == [] then None
    else if t[0] == QUOTE then
      var b := ReadBody(t[1..]);
      if b.Some? then Some(ValueRead(String(b.value.value), b.value.rest)) else None
    else if t[0] == START_ARRAY then
      if |t| > 1 && t[1] == END_ARRAY then Some(ValueRead(Arr([]), t[2..]))
      else
        var r := ReadItems(t[1..]);
        if r.Some? then Some(ValueRead(Arr(r.value.items), r.value.rest)) else None
    else if t[0] == OPEN then
      if |t| > 1 && t[1] == CLOSE then Some(ValueRead(Obj([]), t[2..]))
      else
        var r := ReadMembers(t[1..]);
        if r.Some? then Some(ValueRead(Obj(r.value.members), r.value.rest)) else None
    else if StartsWith(t, NULL_TEXT) then Some(ValueRead(Null, t[4..]))
    else if StartsWith(t, TRUE_TEXT) then Some(ValueRead(Bool(true), t[4..]))
    else if StartsWith(t, FALSE_TEXT) then Some(ValueRead(Bool(false), t[5..]))
    else if StartsNumber(t[0]) then
      var n := NumberLength(t);
      Some(ValueRead(Num(t[..n]), t[n..]))
    else None
  }

  /** Reads the items of an array, of which there is at least one, and the closing bracket. */
  function ReadItems(t: Text): (r: Option<ItemsRead>)
    ensures r.Some? ==> |r.value.rest| < |t|
    decreases |t|, 1
  {
    var v := ReadValue(t);
    if v.None? || v.value.rest == [] then None
    else
      var u, rest := v.value.rest[0], v.value.rest[1..];
      if u == END_ARRAY then Some(ItemsRead([v.value.value], rest))
      else if u != COMMA then None
      else
        var more := ReadItems(rest);
        if more.Some? then Some(ItemsRead([v.value.value] + more.value.items, more.value.rest)) else None
  }

  /** Reads the members of an object, of which there is at least one, and the closing brace. */
  function ReadMembers(t: Text): (r: Option<MembersRead>)
    ensures r.Some? ==> |r.value.rest| < |t|
    decreases |t|, 1
  {
    if t == [] || t[0] != QUOTE then None
    else
      var name := ReadBody(t[1..]);
      if name.None? || name.value.rest == [] || name.value.rest[0] != COLON then None
      else
        var v := ReadValue(name.value.rest[1..]);
        if v.None? || v.value.rest == [] then None
        else
          var m := Member(name.value.value, v.value.value);
          var u, rest := v.value.rest[0], v.value.rest[1..];
          if u == CLOSE then Some(MembersRead([m], rest))
          else if u != COMMA then None
          else
            var more := ReadMembers(rest);
            if more.Some? then Some(MembersRead([m] + more.value.members, more.value.rest)) else None
  }

  // ---------- What is printed reads back ----------

  /** The text does not go on like a number. */
  predicate Delimits(rest: Text) {
    rest != [] ==> !IsNumberUnit(rest[0])
  }

  lemma {:induction false} NumberLengthIs(t: Text, rest: Text)
    requires (forall i :: 0 <= i < |t| ==> IsNumberUnit(t[i])) && Delimits(rest)
    ensures NumberLength(t + rest) == |t|
  {
    if t == [] {
      assert t + rest == rest;
    } else {
      NumberLengthIs(t[1..], rest);
      assert (t + rest)[1..] == t[1..] + rest;
    }
  }

  /** A printed value starts with no closing bracket or brace. */
  lemma {:induction false} StringifyHead(v: Json)
    ensures var t := Stringify(v); t != [] && t[0] != END_ARRAY && t[0] != CLOSE
  {
  }

  lemma {:induction false} WordsRead(rest: Text)
    ensures ReadValue(NULL_TEXT + rest) == Some(ValueRead(Null, rest))
    ensures ReadValue(TRUE_TEXT + rest) == Some(ValueRead(Bool(true), rest))
    ensures ReadValue(FALSE_TEXT + rest) == Some(ValueRead(Bool(false), rest))
  {
    assert (NULL_TEXT + rest)[..4] == NULL_TEXT && (NULL_TEXT + rest)[4..] == rest;
    assert (TRUE_TEXT + rest)[..4] == TRUE_TEXT && (TRUE_TEXT + rest)[4..] == rest;
    assert (FALSE_TEXT + rest)[..5] == FALSE_TEXT && (FALSE_TEXT + rest)[5..] == rest;
  }

  lemma {:induction false} NumberReads(digits: NumberText, rest: Text)
    requires Delimits(rest)
    ensures ReadValue(digits + rest) == Some(ValueRead(Num(digits), rest))
  {
    var t := digits + rest;
    NumberLengthIs(digits, rest);
    assert t[0] == digits[0] && t[..|digits|] == digits && t[|digits|..] == rest;
  }

  /** The printed value, whatever follows it, reads back as the value, and the reader is left at what follows.
      (What follows a number must not go on like one.) */
  lemma {:induction false} StringifyRoundTrip(v: Json, rest: Text)
    requires v.Num? ==> Delimits(rest)
    ensures ReadValue(Stringify(v) + rest) == Some(ValueRead(v, rest))
    decreases v, 1
  {
    match v
    case Null => WordsRead(rest);
    case Bool(b) => WordsRead(rest);
    case Num(digits) => NumberReads(digits, rest);
    case String(text) => QuotedReads(text, rest);
    case Arr(items) => ArrayReads(items, rest);
    case Obj(members) => ObjectReads(members, rest);
  }

  lemma {:induction false} EmptiesRead(rest: Text)
    ensures ReadValue(Stringify(Arr([])) + rest) == Some(ValueRead(Arr([]), rest))
    ensures ReadValue(Stringify(Obj([])) + rest) == Some(ValueRead(Obj([]), rest))
  {
    var a, o := [START_ARRAY, END_ARRAY] + rest, [OPEN, CLOSE] + rest;
    assert Stringify(Arr([])) == [START_ARRAY, END_ARRAY] && a[2..] == rest;
    assert Stringify(Obj([])) == [OPEN, CLOSE] && o[2..] == rest;
  }

  lemma {:induction false} BracketedReads(body: Text, items: seq<Json>, rest: Text)
    requires body != [] && body[0] != END_ARRAY && ReadItems(body) == Some(ItemsRead(items, rest))
    ensures ReadValue([START_ARRAY] + body) == Some(ValueRead(Arr(items), rest))
  {
    assert ([START_ARRAY] + body)[1..] == body;
  }

  lemma {:induction false} ArrayReads(items: seq<Json>, rest: Text)
    ensures ReadValue(Stringify(Arr(items)) + rest) == Some(ValueRead(Arr(items), rest))
    decreases items, 1
  {
    if items == [] {
      EmptiesRead(rest);
    } else {
      var end := [END_ARRAY] + rest;
      ItemsReadBack(items, rest);
      StringifyHead(items[0]);
      JoinedItems(items, end);
      BracketedReads(JoinItems(items) + end, items, rest);
      assert [START_ARRAY] + (JoinItems(items) + end) == [START_ARRAY] + JoinItems(items) + [END_ARRAY] + rest;
    }
  }

  lemma {:induction false} LastItemReads(t: Text, v: Json, rest: Text)
    requires ReadValue(t) == Some(ValueRead(v, [END_ARRAY] + rest))
    ensures ReadItems(t) == Some(ItemsRead([v], rest))
  {
    assert ([END_ARRAY] + rest)[1..] == rest;
  }

  lemma {:induction false} NextItemReads(t: Text, v: Json, more: Text, items: seq<Json>, rest: Text)
    requires ReadValue(t) == Some(ValueRead(v, [COMMA] + more)) && ReadItems(more) == Some(ItemsRead(items, rest))
    ensures ReadItems(t) == Some(ItemsRead([v] + items, rest))
  {
    assert ([COMMA] + more)[1..] == more;
  }

  lemma {:induction false} JoinedItems(items: seq<Json>, end: Text)
    requires items != []
    ensures JoinItems(items) + end
         == Stringify(items[0]) + if |items| == 1 then end else [COMMA] + (JoinItems(items[1..]) + end)
  {
    if |items| > 1 {
      assert Stringify(items[0]) + ([COMMA] + JoinItems(items[1..])) + end
          == Stringify(items[0]) + ([COMMA] + (JoinItems(items[1..]) + end));
    } else {
      assert Stringify(items[0]) + [] == Stringify(items[0]);
    }
  }

  lemma {:induction false} OneItemReads(v: Json, rest: Text)
    ensures ReadItems(Stringify(v) + ([END_ARRAY] + rest)) == Some(ItemsRead([v], rest))
    decreases v, 2
  {
    StringifyRoundTrip(v, [END_ARRAY] + rest);
    LastItemReads(Stringify(v) + ([END_ARRAY] + rest), v, rest);
  }

  lemma {:induction false} MoreItemsRead(v: Json, more: Text, items: seq<Json>, rest: Text)
    requires ReadItems(more) == Some(ItemsRead(items, rest))
    ensures ReadItems(Stringify(v) + ([COMMA] + more)) == Some(ItemsRead([v] + items, rest))
    decreases v, 2
  {
    StringifyRoundTrip(v, [COMMA] + more);
    NextItemReads(Stringify(v) + ([COMMA] + more), v, more, items, rest);
  }

  lemma {:induction false} ItemsReadBack(items: seq<Json>, rest: Text)
    requires items != []
    ensures ReadItems(JoinItems(items) + ([END_ARRAY] + rest)) == Some(ItemsRead(items, rest))
    decreases items, 0
  {
    JoinedItems(items, [END_ARRAY] + rest);
    if |items| == 1 {
      OneItemReads(items[0], rest);
      assert items == [items[0]];
    } else {
      ItemsReadBack(items[1..], rest);
      MoreItemsRead(items[0], JoinItems(items[1..]) + ([END_ARRAY] + rest), items[1..], rest);
      assert items == [items[0]] + items[1..];
    }
  }

  lemma {:induction false} BracedReads(body: Text, members: seq<Member>, rest: Text)
    requires body != [] && body[0] == QUOTE && ReadMembers(body) == Some(MembersRead(members, rest))
    ensures ReadValue([OPEN] + body) == Some(ValueRead(Obj(members), rest))
  {
    assert ([OPEN] + body)[1..] == body;
  }

  lemma {:induction false} ObjectReads(members: seq<Member>, rest: Text)
    ensures ReadValue(Stringify(Obj(members)) + rest) == Some(ValueRead(Obj(members), rest))
    decreases members, 1
  {
    if members == [] {
      EmptiesRead(rest);
    } else {
      MembersReadBack(members, rest);
      JoinedMembers(members, [CLOSE] + rest);
      BracedReads(JoinMembers(members) + ([CLOSE] + rest), members, rest);
      assert [OPEN] + (JoinMembers(members) + ([CLOSE] + rest)) == [OPEN] + JoinMembers(members) + [CLOSE] + rest;
    }
  }

  /** A member of an object in front of some text. */
  function MemberText(m: Member, next: Text): Text {
    Quoted(m.name) + ([COLON] + (Stringify(m.value) + next))
  }

  lemma {:induction false} JoinedMembers(members: seq<Member>, end: Text)
    requires members != []
    ensures JoinMembers(members) + end
         == MemberText(members[0], if |members| == 1 then end else [COMMA] + (JoinMembers(members[1..]) + end))
    ensures (JoinMembers(members) + end)[0] == QUOTE
  {
    var name, value := Quoted(members[0].name), Stringify(members[0].value);
    if |members| > 1 {
      var more := JoinMembers(members[1..]);
      assert name + [COLON] + value + ([COMMA] + more) + end == name + ([COLON] + (value + ([COMMA] + (more + end))));
    } else {
      assert name + [COLON] + value + [] + end == name + ([COLON] + (value + end));
    }
  }

  lemma {:induction false} MemberReads(m: Member, next: Text)
    requires next != [] && !IsNumberUnit(next[0])
    ensures var t := MemberText(m, next);
      && t != [] && t[0] == QUOTE && ReadBody(t[1..]) == Some(Body(m.name, [COLON] + (Stringify(m.value) + next)))
      && ReadValue(Stringify(m.value) + next) == Some(ValueRead(m.value, next))
    decreases m, 2
  {
    QuotedReads(m.name, [COLON] + (Stringify(m.value) + next));
    StringifyRoundTrip(m.value, next);
  }

  lemma {:induction false} LastMemberReads(t: Text, m: Member, after: Text, rest: Text)
    requires t != [] && t[0] == QUOTE && ReadBody(t[1..]) == Some(Body(m.name, [COLON] + after))
    requires ReadValue(after) == Some(ValueRead(m.value, [CLOSE] + rest))
    ensures ReadMembers(t) == Some(MembersRead([m], rest))
  {
    assert ([COLON] + after)[1..] == after && ([CLOSE] + rest)[1..] == rest;
  }

  lemma {:induction false} NextMemberReads(
      t: Text, m: Member, after: Text, more: Text, members: seq<Member>, rest: Text)
    requires t != [] && t[0] == QUOTE && ReadBody(t[1..]) == Some(Body(m.name, [COLON] + after))
    requires ReadValue(after) == Some(ValueRead(m.value, [COMMA] + more))
    requires ReadMembers(more) == Some(MembersRead(members, rest))
    ensures ReadMembers(t) == Some(MembersRead([m] + members, rest))
  {
    assert ([COLON] + after)[1..] == after && ([COMMA] + more)[1..] == more;
  }

  lemma {:induction false} MembersReadBack(members: seq<Member>, rest: Text)
    requires members != []
    ensures ReadMembers(JoinMembers(members) + ([CLOSE] + rest)) == Some(MembersRead(members, rest))
    decreases members, 0
  {
    var end, m := [CLOSE] + rest, members[0];
    JoinedMembers(members, end);
    if |members| == 1 {
      MemberReads(m, end);
      LastMemberReads(JoinMembers(members) + end, m, Stringify(m.value) + end, rest);
      assert members == [m];
    } else {
      var more := JoinMembers(members[1..]) + end;
      MemberReads(m, [COMMA] + more);
      MembersReadBack(members[1..], rest);
      NextMemberReads(
        JoinMembers(members) + end, m, Stringify(m.value) + ([COMMA] + more), more, members[1..], rest);
      assert members == [m] + members[1..];
    }
  }

  /** Different values print differently. */
  lemma {:induction false} StringifyIsInjective(v: Json, w: Json)
    requires Stringify(v) == Stringify(w)
    ensures v == w
  {
    StringifyRoundTrip(v, []);
    StringifyRoundTrip(w, []);
  }
}
