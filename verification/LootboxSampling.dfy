/**
 * Weighted lootbox sampling without repetition (lootboxSamplingService.ts) and
 * the loot tables it draws from, from saving (brands.ts) to normalisation.
 */
module LootboxSampling {
  import opened Wrappers
  import opened JsonText
  import Placeholders

  datatype Entry = Entry(traitName: Text, traitValue: Text, weight: int)

  const SEPARATOR: Text := [0x3A, 0x3A]

  /** `name::value`, by which entries are told apart. */
  function Key(e: Entry): Text {
    e.traitName + SEPARATOR + e.traitValue
  }

  // ---------- Loot tables ----------

  /** The result of `Number(x)`. */
  datatype JsNumber = NotANumber | Infinite | Finite(value: real)

  /** A raw table entry; a text is what `String` makes of a value that is neither null nor undefined. */
  datatype RawEntry =
    | NotAnObject
    | Record(traitName: Option<Text>, traitKey: Option<Text>, traitValue: Option<Text>, weight: JsNumber)

  function TrimStart(t: Text): Text {
    if t != [] && Placeholders.IsSpace(t[0]) then TrimStart(t[1..]) else t
  }

  function TrimEnd(t: Text): Text {
    if t != [] && Placeholders.IsSpace(t[|t| - 1]) then TrimEnd(t[..|t| - 1]) else t
  }

  function Trim(t: Text): Text {
    TrimEnd(TrimStart(t))
  }

  predicate IsWholeWeight(w: JsNumber) {
    w.Finite? && w.value.Floor as real == w.value && w.value >= 1.0
  }

  function OrElse(a: Option<Text>, b: Option<Text>): Option<Text> {
    if a.Some? then a else b
  }

  /** An entry as the save handler reads it, before validation. */
  datatype Candidate = Candidate(traitName: Text, traitValue: Text, weight: JsNumber)

  function ReadCandidate(raw: RawEntry): Candidate {
    match raw
    case NotAnObject => Candidate([], [], NotANumber)
    case Record(name, key, value, weight) =>
      Candidate(Trim(OrElse(name, key).GetOr([])), Trim(value.GetOr([])), weight)
  }

  predicate ValidCandidate(c: Candidate) {
    c.traitName != [] && c.traitValue != [] && IsWholeWeight(c.weight)
  }

  function ToEntry(c: Candidate): Entry
    requires ValidCandidate(c)
  {
    Entry(c.traitName, c.traitValue, c.weight.value.Floor)
  }

  /** The entry is what saving makes of a valid raw one. */
  predicate IsReadFrom(e: Entry, raw: RawEntry) {
    ValidCandidate(ReadCandidate(raw)) && e == ToEntry(ReadCandidate(raw))
  }

  /** `saved` is what saving makes of `raws`. */
  predicate SavedFrom(raws: seq<RawEntry>, saved: seq<Entry>) {
    |saved| == |raws| && forall i :: 0 <= i < |raws| ==> IsReadFrom(saved[i], raws[i])
  }

  /** The table saved with a lootbox configuration, or `None` when the request is rejected. */
  method ValidateLootTable(enabled: bool, raws: seq<RawEntry>) returns (saved: Option<seq<Entry>>)
    ensures saved.Some?
      <==> (enabled ==> raws != []) && forall i :: 0 <= i < |raws| ==> ValidCandidate(ReadCandidate(raws[i]))
    ensures saved.Some? ==> SavedFrom(raws, saved.value)
  {
    if enabled && raws == [] {
      return None;
    }
    var entries: seq<Entry> := [];
    for i := 0 to |raws|
      invariant |entries| == i
      invariant forall j :: 0 <= j < i ==> IsReadFrom(entries[j], raws[j])
    {
      var c := ReadCandidate(raws[i]);
      if c.traitName == [] || c.traitValue == [] {
        return None;
      }
      if !IsWholeWeight(c.weight) {
        return None;
      }
      entries := entries + [ToEntry(c)];
    }
    return Some(entries);
  }

  /** An entry as it is stored in the configuration's JSON column. */
  function Stored(e: Entry): RawEntry {
    Record(Some(e.traitName), None, Some(e.traitValue), Finite(e.weight as real))
  }

  /** What normalisation makes of one stored value: nothing, or one entry. */
  function NormalizeOne(raw: RawEntry): seq<Entry> {
    match raw
    case NotAnObject => []
    case Record(name, _, value, weight) =>
      var c := Candidate(Trim(name.GetOr([])), Trim(value.GetOr([])), weight);
      if ValidCandidate(c) then [ToEntry(c)] else []
  }

  function Normalized(raws: seq<RawEntry>): seq<Entry> {
    if raws == [] then [] else Normalized(raws[..|raws| - 1]) + NormalizeOne(raws[|raws| - 1])
  }

  method NormalizeLootTableEntries(raws: seq<RawEntry>) returns (entries: seq<Entry>)
    ensures entries == Normalized(raws)
  {
    entries := [];
    for i := 0 to |raws|
      invariant entries == Normalized(raws[..i])
    {
      assert raws[..i + 1][..i] == raws[..i];
      var raw := raws[i];
      if raw.NotAnObject? {
        continue;
      }
      var name, value := Trim(raw.traitName.GetOr([])), Trim(raw.traitValue.GetOr([]));
      if name == [] || value == [] {
        continue;
      }
      if !IsWholeWeight(raw.weight) {
        continue;
      }
      entries := entries + [Entry(name, value, raw.weight.value.Floor)];
    }
    assert raws[..|raws|] == raws;
  }

  predicate Positive(entries: seq<Entry>) {
    forall i :: 0 <= i < |entries| ==> entries[i].weight >= 1
  }

  lemma {:induction false} NormalizedIsPositive(raws: seq<RawEntry>)
    ensures Positive(Normalized(raws))
  {
    if raws != [] {
      NormalizedIsPositive(raws[..|raws| - 1]);
    }
  }

  predicate Trimmed(t: Text) {
    t != [] ==> !Placeholders.IsSpace(t[0]) && !Placeholders.IsSpace(t[|t| - 1])
  }

  lemma {:induction false} TrimStartTrims(t: Text)
    ensures var r := TrimStart(t); r != [] ==> !Placeholders.IsSpace(r[0])
  {
    if t != [] && Placeholders.IsSpace(t[0]) {
      TrimStartTrims(t[1..]);
    }
  }

  lemma {:induction false} TrimEndTrims(t: Text)
    ensures var r := TrimEnd(t);
      r != [] ==> !Placeholders.IsSpace(r[|r| - 1]) && r[0] == t[0]
    ensures |TrimEnd(t)| <= |t|
  {
    if t != [] && Placeholders.IsSpace(t[|t| - 1]) {
      TrimEndTrims(t[..|t| - 1]);
    }
  }

  /** Trimming leaves trimmed text, and trimmed text alone. */
  lemma {:induction false} TrimIsIdempotent(t: Text)
    ensures Trimmed(Trim(t)) && Trim(Trim(t)) == Trim(t)
  {
    TrimStartTrims(t);
    TrimEndTrims(TrimStart(t));
  }

  lemma {:induction false} StoredEntryReadsBack(raw: RawEntry)
    requires ValidCandidate(ReadCandidate(raw))
    ensures var e := ToEntry(ReadCandidate(raw));
      NormalizeOne(Stored(e)) == [e] && e.weight >= 1
  {
    TrimIsIdempotent(OrElse(raw.traitName, raw.traitKey).GetOr([]));
    TrimIsIdempotent(raw.traitValue.GetOr([]));
    var e := ToEntry(ReadCandidate(raw));
    assert (e.weight as real).Floor == e.weight;
  }

  function StoredTable(saved: seq<Entry>): (table: seq<RawEntry>)
    ensures |table| == |saved| && forall i :: 0 <= i < |saved| ==> table[i] == Stored(saved[i])
  {
    seq(|saved|, i requires 0 <= i < |saved| => Stored(saved[i]))
  }

  lemma {:induction false} NormalizedExtends(raws: seq<RawEntry>, raw: RawEntry)
    ensures Normalized(raws + [raw]) == Normalized(raws) + NormalizeOne(raw)
  {
    assert (raws + [raw])[..|raws|] == raws;
  }

  /** Trimming takes spaces off both ends, and nothing else. */
  lemma {:induction false} TrimTakesSpaces(t: Text) returns (l: Text, r: Text)
    ensures Placeholders.AllSpace(l) && Placeholders.AllSpace(r) && t == l + Trim(t) + r
  {
    l := TrimStartTakes(t);
    r := TrimEndTakes(TrimStart(t));
    assert t == l + (Trim(t) + r);
  }

  lemma {:induction false} TrimStartTakes(t: Text) returns (l: Text)
    ensures Placeholders.AllSpace(l) && t == l + TrimStart(t)
  {
    l := [];
    if t != [] && Placeholders.IsSpace(t[0]) {
      l := TrimStartTakes(t[1..]);
      l := [t[0]] + l;
      assert t == [t[0]] + t[1..];
    }
  }

  lemma {:induction false} TrimEndTakes(t: Text) returns (r: Text)
    ensures Placeholders.AllSpace(r) && t == TrimEnd(t) + r
  {
    r := [];
    if t != [] && Placeholders.IsSpace(t[|t| - 1]) {
      r := TrimEndTakes(t[..|t| - 1]);
      r := r + [t[|t| - 1]];
      assert t == t[..|t| - 1] + [t[|t| - 1]];
    }
  }

  /** A trimmed entry with a whole weight is saved as it is, under its name or, without one, its key. */
  lemma {:induction false} TrimmedEntryIsSavedAsGiven(name: Text, value: Text, weight: nat, other: Option<Text>)
    requires name != [] && value != [] && Trimmed(name) && Trimmed(value) && weight >= 1
    ensures IsReadFrom(Entry(name, value, weight), Record(Some(name), other, Some(value), Finite(weight as real)))
    ensures IsReadFrom(Entry(name, value, weight), Record(None, Some(name), Some(value), Finite(weight as real)))
  {
    assert (weight as real).Floor == weight;
    assert Trim(name) == name && Trim(value) == value;
  }

  predicate ReadsBack(e: Entry) {
    NormalizeOne(Stored(e)) == [e] && e.weight >= 1
  }

  lemma {:induction false} StoredTableReadsBack(saved: seq<Entry>)
    requires forall e :: e in saved ==> ReadsBack(e)
    ensures Normalized(StoredTable(saved)) == saved
  {
    if saved != [] {
      var n := |saved| - 1;
      StoredTableReadsBack(saved[..n]);
      NormalizedExtends(StoredTable(saved[..n]), Stored(saved[n]));
      assert StoredTable(saved) == StoredTable(saved[..n]) + [Stored(saved[n])];
      assert saved == saved[..n] + [saved[n]];
      assert ReadsBack(saved[n]);
    }
  }

  /** Entries a save accepted come back from the stored table unchanged, and satisfy the sampler's premise. */
  lemma {:induction false} SavedTableSurvivesNormalisation(raws: seq<RawEntry>, saved: seq<Entry>)
    requires SavedFrom(raws, saved)
    ensures Normalized(StoredTable(saved)) == saved && Positive(saved)
  {
    forall i | 0 <= i < |saved|
      ensures ReadsBack(saved[i])
    {
      StoredEntryReadsBack(raws[i]);
    }
    StoredTableReadsBack(saved);
  }

  // ---------- One draw ----------

  function TotalWeight(entries: seq<Entry>): int {
    if entries == [] then 0 else TotalWeight(entries[..|entries| - 1]) + entries[|entries| - 1].weight
  }

  /** The weight of the entries up to and including position `i`. */
  function Upto(entries: seq<Entry>, i: nat): int
    requires i < |entries|
  {
    TotalWeight(entries[..i + 1])
  }

  /** The first position whose cumulative weight exceeds the roll; the last one when there is none. */
  function PickIndex(entries: seq<Entry>, roll: int, from: nat): (i: nat)
    requires from < |entries|
    ensures from <= i < |entries|
    ensures forall j :: from <= j < i ==> roll >= Upto(entries, j)
    ensures roll < Upto(entries, i) || i == |entries| - 1
    decreases |entries| - from
  {
    if roll < Upto(entries, from) || from == |entries| - 1 then from
    else PickIndex(entries, roll, from + 1)
  }

  /** `pickOne` for a given roll: each entry's weight is taken off until the roll is below it. */
  method PickOne(entries: seq<Entry>, roll: int) returns (e: Option<Entry>)
    requires entries != []
    ensures e == if TotalWeight(entries) <= 0 then None else Some(entries[PickIndex(entries, roll, 0)])
  {
    if TotalWeight(entries) <= 0 {
      return None;
    }
    var left := roll;
    for i := 0 to |entries|
      invariant left == roll - TotalWeight(entries[..i])
      invariant forall j :: 0 <= j < i ==> roll >= Upto(entries, j)
    {
      assert entries[..i + 1][..i] == entries[..i];
      if left < entries[i].weight {
        PickIndexIs(entries, roll, i);
        return Some(entries[i]);
      }
      left := left - entries[i].weight;
    }
    PickIndexIs(entries, roll, |entries| - 1);
    return Some(entries[|entries| - 1]);
  }

  lemma {:induction false} PickIndexIs(entries: seq<Entry>, roll: int, i: nat)
    requires i < |entries| && forall j :: 0 <= j < i ==> roll >= Upto(entries, j)
    requires roll < Upto(entries, i) || i == |entries| - 1
    ensures PickIndex(entries, roll, 0) == i
  {
    var k := PickIndex(entries, roll, 0);
    var weightAtK, weightAtI := Upto(entries, k), Upto(entries, i);
  }

  lemma {:induction false} PrefixWeightsGrow(entries: seq<Entry>, i: nat, j: nat)
    requires i <= j <= |entries| && Positive(entries)
    ensures TotalWeight(entries[..i]) + (j - i) <= TotalWeight(entries[..j])
    decreases j - i
  {
    if i < j {
      PrefixWeightsGrow(entries, i, j - 1);
      assert entries[..j][..j - 1] == entries[..j - 1];
    }
  }

  /** With positive weights, a roll below the total picks the position whose weight interval it falls in;
      no fallback is needed. */
  lemma {:induction false} PickedByInterval(entries: seq<Entry>, roll: int, i: nat)
    requires Positive(entries) && i < |entries| && 0 <= roll < TotalWeight(entries)
    ensures PickIndex(entries, roll, 0) == i
      <==> TotalWeight(entries[..i]) <= roll < TotalWeight(entries[..i]) + entries[i].weight
  {
    var k := PickIndex(entries, roll, 0);
    assert entries[..|entries|] == entries && entries[..0] == [];
    assert entries[..i + 1][..i] == entries[..i];
    if k == i && i > 0 {
      var j := i - 1;
      assert roll >= Upto(entries, j);
    }
    if TotalWeight(entries[..i]) <= roll < Upto(entries, i) {
      forall j | 0 <= j < i
        ensures roll >= Upto(entries, j)
      {
        PrefixWeightsGrow(entries, j + 1, i);
      }
      PickIndexIs(entries, roll, i);
    }
  }

  /** The rolls that pick a position. */
  function Rolls(entries: seq<Entry>, i: nat): set<int>
    requires i < |entries|
  {
    set roll | 0 <= roll < TotalWeight(entries) && PickIndex(entries, roll, 0) == i
  }

  function Interval(lo: int, n: nat): (s: set<int>)
    ensures forall x :: x in s <==> lo <= x < lo + n
    ensures |s| == n
  {
    if n == 0 then {} else Interval(lo, n - 1) + {lo + n - 1}
  }

  /** Exactly `weight` of the equally likely integer rolls pick each position. */
  lemma {:induction false} WeightManyRollsPickEachPosition(entries: seq<Entry>, i: nat)
    requires Positive(entries) && i < |entries|
    ensures |Rolls(entries, i)| == entries[i].weight
  {
    var lo := TotalWeight(entries[..i]);
    var s := Interval(lo, entries[i].weight);
    PrefixWeightsGrow(entries, 0, i);
    PrefixWeightsGrow(entries, i + 1, |entries|);
    assert entries[..i + 1][..i] == entries[..i];
    assert entries[..|entries|] == entries && entries[..0] == [];
    forall roll
      ensures roll in Rolls(entries, i) <==> roll in s
    {
      if 0 <= roll < TotalWeight(entries) {
        PickedByInterval(entries, roll, i);
      }
    }
    assert Rolls(entries, i) == s;
  }

  /** `Math.floor(random() * totalWeight)` */
  function Roll(entries: seq<Entry>, r: real): int {
    (r * TotalWeight(entries) as real).Floor
  }

  lemma {:induction false} ScaleBelow(r: real, t: real)
    requires 0.0 <= r < 1.0 && t > 0.0
    ensures 0.0 <= r * t < t
  {
  }

  lemma {:induction false} FloorBelow(x: real, t: int)
    requires 0.0 <= x < t as real
    ensures 0 <= x.Floor < t
  {
  }

  /** A draw from [0, 1) rolls an integer from 0 to the total weight minus one. */
  lemma {:induction false} RollIsBelowTotal(entries: seq<Entry>, r: real)
    requires 0.0 <= r < 1.0 && TotalWeight(entries) > 0
    ensures 0 <= Roll(entries, r) < TotalWeight(entries)
  {
    var t := TotalWeight(entries);
    ScaleBelow(r, t as real);
    FloorBelow(r * t as real, t);
  }

  lemma {:induction false} FloorBetween(x: real, lo: int, hi: int)
    ensures lo <= x.Floor < hi <==> lo as real <= x < hi as real
  {
  }

  lemma {:induction false} RollBetween(entries: seq<Entry>, r: real, lo: int, hi: int)
    ensures lo <= Roll(entries, r) < hi <==> lo as real <= r * TotalWeight(entries) as real < hi as real
  {
    FloorBetween(r * TotalWeight(entries) as real, lo, hi);
  }

  lemma {:induction false} TotalIsPositive(entries: seq<Entry>)
    requires Positive(entries) && entries != []
    ensures TotalWeight(entries) > 0
  {
    PrefixWeightsGrow(entries, 0, |entries|);
    assert entries[..|entries|] == entries;
  }

  lemma {:induction false} PickedByRoll(entries: seq<Entry>, r: real, i: nat)
    requires Positive(entries) && i < |entries| && 0.0 <= r < 1.0
    ensures PickIndex(entries, Roll(entries, r), 0) == i
      <==> TotalWeight(entries[..i]) <= Roll(entries, r) < TotalWeight(entries[..i]) + entries[i].weight
  {
    TotalIsPositive(entries);
    RollIsBelowTotal(entries, r);
    PickedByInterval(entries, Roll(entries, r), i);
  }

  /** A draw from the unit interval picks a position exactly if it falls in the part of the interval that the
      weights before it leave to its own. */
  lemma {:induction false} DrawnByShare(entries: seq<Entry>, r: real, i: nat)
    requires Positive(entries) && i < |entries| && 0.0 <= r < 1.0
    ensures var lo := TotalWeight(entries[..i]);
      var hi := lo + entries[i].weight;
      PickIndex(entries, Roll(entries, r), 0) == i
      <==> lo as real <= r * TotalWeight(entries) as real < hi as real
  {
    PickedByRoll(entries, r, i);
    RollBetween(entries, r, TotalWeight(entries[..i]), TotalWeight(entries[..i]) + entries[i].weight);
  }

  // ---------- Sampling without repetition ----------

  function Max(a: int, b: int): int {
    if a < b then b else a
  }

  function AttemptBound(entries: seq<Entry>, count: nat, maxAttempts: Option<int>): (n: nat)
    ensures n >= 20 && n >= 5 * (|entries| * count) && (maxAttempts.Some? ==> n >= maxAttempts.value)
    ensures n == 20 || n == 5 * (|entries| * count) || maxAttempts == Some(n)
  {
    Max(maxAttempts.GetOr(0), Max(20, |entries| * count * 5))
  }

  function Draw(entries: seq<Entry>, r: real): Entry
    requires entries != []
  {
    entries[PickIndex(entries, Roll(entries, r), 0)]
  }

  /** The first `n` draws of the random source. */
  function Draws(entries: seq<Entry>, random: nat -> real, n: nat): (ds: seq<Entry>)
    requires entries != []
    ensures |ds| == n && forall i :: 0 <= i < n ==> ds[i] == Draw(entries, random(i))
  {
    seq(n, i requires 0 <= i < n => Draw(entries, random(i)))
  }

  predicate SeenIn(key: Text, ds: seq<Entry>) {
    exists i :: 0 <= i < |ds| && Key(ds[i]) == key
  }

  /** The draws whose key is neither excluded nor drawn before, in order. */
  function Fresh(ds: seq<Entry>, excluded: set<Text>): seq<Entry> {
    if ds == [] then []
    else
      var before, e := ds[..|ds| - 1], ds[|ds| - 1];
      Fresh(before, excluded) + if Key(e) in excluded || SeenIn(Key(e), before) then [] else [e]
  }

  function Take(es: seq<Entry>, n: nat): seq<Entry> {
    if n <= |es| then es[..n] else es
  }

  /** What sampling returns: the first `count` fresh draws among the attempts allowed. */
  function Sample(
      entries: seq<Entry>, count: int, excluded: set<Text>, maxAttempts: Option<int>, random: nat -> real): seq<Entry> {
    if count <= 0 || entries == [] || TotalWeight(entries) <= 0 then []
    else Take(Fresh(Draws(entries, random, AttemptBound(entries, count, maxAttempts)), excluded), count)
  }

  lemma {:induction false} ExtendSeen(es: seq<Entry>, e: Entry, key: Text)
    ensures SeenIn(key, es + [e]) <==> SeenIn(key, es) || key == Key(e)
  {
    var longer := es + [e];
    assert longer[|es|] == e;
    assert forall i :: 0 <= i < |es| ==> longer[i] == es[i];
  }

  lemma {:induction false} FreshKeys(ds: seq<Entry>, excluded: set<Text>, key: Text)
    ensures SeenIn(key, Fresh(ds, excluded)) <==> SeenIn(key, ds) && key !in excluded
  {
    if ds != [] {
      var n := |ds| - 1;
      var before, e := ds[..n], ds[n];
      FreshKeys(before, excluded, key);
      assert ds == before + [e];
      ExtendSeen(before, e, key);
      ExtendSeen(Fresh(before, excluded), e, key);
      assert Fresh(before, excluded) + [] == Fresh(before, excluded);
    }
  }

  lemma {:induction false} FreshIsPrefixMonotone(ds: seq<Entry>, n: nat, excluded: set<Text>)
    requires n <= |ds|
    ensures Fresh(ds[..n], excluded) <= Fresh(ds, excluded)
    decreases |ds|
  {
    if n < |ds| {
      assert ds[..|ds| - 1][..n] == ds[..n];
      FreshIsPrefixMonotone(ds[..|ds| - 1], n, excluded);
    } else {
      assert ds[..n] == ds;
    }
  }

  /** One more draw: it is added exactly when its key is neither excluded nor among those picked. */
  lemma {:induction false} FreshStep(ds: seq<Entry>, n: nat, excluded: set<Text>)
    requires n < |ds|
    ensures var picked := Fresh(ds[..n], excluded);
      Fresh(ds[..n + 1], excluded)
      == if Key(ds[n]) in excluded || SeenIn(Key(ds[n]), picked) then picked else picked + [ds[n]]
  {
    assert ds[..n + 1][..n] == ds[..n];
    FreshKeys(ds[..n], excluded, Key(ds[n]));
  }

  /** The rejection loop computes exactly the first `count` fresh draws. */
  method SampleWeightedLootEntries(
      entries: seq<Entry>, count: int, excluded: set<Text>, maxAttempts: Option<int>, random: nat -> real)
    returns (picked: seq<Entry>)
    ensures picked == Sample(entries, count, excluded, maxAttempts, random)
  {
    if count <= 0 || entries == [] {
      return [];
    }
    var bound := AttemptBound(entries, count, maxAttempts);
    ghost var ds := Draws(entries, random, bound);
    var attempts: nat;
    picked, attempts := RejectionLoop(entries, count, excluded, bound, random);
    if TotalWeight(entries) > 0 {
      FreshIsPrefixMonotone(ds, attempts, excluded);
      assert ds[..bound] == ds;
    }
  }

  /** Draws until `count` entries are picked or the attempts run out. */
  method RejectionLoop(entries: seq<Entry>, count: nat, excluded: set<Text>, bound: nat, random: nat -> real)
    returns (picked: seq<Entry>, attempts: nat)
    requires entries != []
    ensures TotalWeight(entries) <= 0 ==> picked == []
    ensures attempts <= bound && |picked| <= count
    ensures TotalWeight(entries) > 0 && |picked| < count ==> attempts == bound
    ensures TotalWeight(entries) > 0 ==> picked == Fresh(Draws(entries, random, bound)[..attempts], excluded)
  {
    var pickedKeys: set<Text> := {};
    picked, attempts := [], 0;
    ghost var ds := Draws(entries, random, bound);
    while |picked| < count && attempts < bound
      invariant attempts <= bound && |picked| <= count
      invariant TotalWeight(entries) <= 0 ==> picked == []
      invariant TotalWeight(entries) > 0 ==> picked == Fresh(ds[..attempts], excluded)
      invariant forall key :: key in pickedKeys <==> SeenIn(key, picked)
    {
      FreshStep(ds, attempts, excluded);
      var drawn := PickOne(entries, Roll(entries, random(attempts)));
      if drawn.None? {
        break;
      }
      var selected := drawn.value;
      assert selected == ds[attempts];
      attempts := attempts + 1;
      var key := Key(selected);
      if key in excluded || key in pickedKeys {
        continue;
      }
      forall k
        ensures SeenIn(k, picked + [selected]) <==> SeenIn(k, picked) || k == key
      {
        ExtendSeen(picked, selected, k);
      }
      pickedKeys := pickedKeys + {key};
      picked := picked + [selected];
    }
  }

  lemma {:induction false} FreshAreDistinct(ds: seq<Entry>, excluded: set<Text>)
    ensures var f := Fresh(ds, excluded);
      forall i, j :: 0 <= i < j < |f| ==> Key(f[i]) != Key(f[j])
    ensures forall e :: e in Fresh(ds, excluded) ==> e in ds && Key(e) !in excluded
  {
    if ds != [] {
      var n := |ds| - 1;
      FreshAreDistinct(ds[..n], excluded);
      FreshKeys(ds[..n], excluded, Key(ds[n]));
      var rest := Fresh(ds[..n], excluded);
      forall i | 0 <= i < |rest|
        ensures SeenIn(Key(rest[i]), rest)
      {
      }
      assert ds == ds[..n] + [ds[n]];
    }
  }

  /** Distinct keys, none excluded, all from `ds`. */
  predicate IsSelection(s: seq<Entry>, ds: seq<Entry>, excluded: set<Text>) {
    && (forall e :: e in s ==> e in ds && Key(e) !in excluded)
    && (forall i, j :: 0 <= i < j < |s| ==> Key(s[i]) != Key(s[j]))
  }

  lemma {:induction false} TakenAreSelected(ds: seq<Entry>, n: nat, excluded: set<Text>)
    ensures |Take(Fresh(ds, excluded), n)| <= n
    ensures IsSelection(Take(Fresh(ds, excluded), n), ds, excluded)
  {
    FreshAreDistinct(ds, excluded);
    TakenAreThere(Fresh(ds, excluded), n);
  }

  lemma {:induction false} DrawsAreEntries(entries: seq<Entry>, random: nat -> real, n: nat)
    requires entries != []
    ensures forall e :: e in Draws(entries, random, n) ==> e in entries
  {
  }

  /** What is sampled comes from the table, is not excluded, and repeats no key. */
  lemma {:induction false} SampledEntries(
      entries: seq<Entry>, count: int, excluded: set<Text>, maxAttempts: Option<int>, random: nat -> real)
    ensures var s := Sample(entries, count, excluded, maxAttempts, random);
      |s| <= Max(0, count) && IsSelection(s, entries, excluded)
  {
    if count > 0 && entries != [] && TotalWeight(entries) > 0 {
      var n := AttemptBound(entries, count, maxAttempts);
      DrawsAreEntries(entries, random, n);
      TakenAreSelected(Draws(entries, random, n), count, excluded);
    }
  }

  /** Every one of the first `n` draws has an excluded key. */
  predicate AllExcluded(entries: seq<Entry>, n: nat, excluded: set<Text>, random: nat -> real)
    requires entries != []
  {
    forall i :: 0 <= i < n ==> Key(Draw(entries, random(i))) in excluded
  }

  lemma {:induction false} FreshIsEmptyExactly(ds: seq<Entry>, excluded: set<Text>)
    ensures Fresh(ds, excluded) == [] <==> forall i :: 0 <= i < |ds| ==> Key(ds[i]) in excluded
  {
    if ds != [] {
      var n := |ds| - 1;
      FreshIsEmptyExactly(ds[..n], excluded);
      if Fresh(ds[..n], excluded) == [] {
        assert forall i :: 0 <= i < n ==> Key(ds[..n][i]) in excluded;
        FreshKeys(ds[..n], excluded, Key(ds[n]));
      }
    }
  }

  /** With positive weights sampling finds nothing exactly if every attempt draws an excluded key. */
  lemma {:induction false} SampleIsEmptyExactly(
      entries: seq<Entry>, count: int, excluded: set<Text>, maxAttempts: Option<int>, random: nat -> real)
    requires count > 0 && entries != [] && Positive(entries)
    ensures Sample(entries, count, excluded, maxAttempts, random) == []
      <==> AllExcluded(entries, AttemptBound(entries, count, maxAttempts), excluded, random)
  {
    PrefixWeightsGrow(entries, 0, |entries|);
    assert entries[..|entries|] == entries;
    var ds := Draws(entries, random, AttemptBound(entries, count, maxAttempts));
    FreshIsEmptyExactly(ds, excluded);
  }

  /** When sampling finds fewer than asked for, every attempt drew an excluded key or one that was found. */
  lemma {:induction false} SampleIsMaximal(
      entries: seq<Entry>, count: int, excluded: set<Text>, maxAttempts: Option<int>, random: nat -> real, i: nat)
    requires count > 0 && entries != [] && Positive(entries) && i < AttemptBound(entries, count, maxAttempts)
    ensures var s := Sample(entries, count, excluded, maxAttempts, random);
      |s| < count ==> Key(Draw(entries, random(i))) in excluded || SeenIn(Key(Draw(entries, random(i))), s)
  {
    PrefixWeightsGrow(entries, 0, |entries|);
    assert entries[..|entries|] == entries;
    var ds := Draws(entries, random, AttemptBound(entries, count, maxAttempts));
    FreshKeys(ds, excluded, Key(ds[i]));
  }

  /** So it may miss entries that are left: when every draw is the lowest, only the first entry is ever picked. */
  lemma {:induction false} LowDrawsMissTheRest(first: Entry, second: Entry, count: int)
    requires count > 0 && first.weight >= 1 && second.weight >= 1
    ensures Sample([first, second], count, {Key(first)}, None, _ => 0.0) == []
  {
    var table := [first, second];
    assert table[..1] == [first] && [first][..0] == [] && table[..2] == table;
    assert TotalWeight([first]) == first.weight;
    assert Upto(table, 0) == TotalWeight(table[..1]) == first.weight;
    assert Roll(table, 0.0) == 0;
    assert Draw(table, 0.0) == first;
    SampleIsEmptyExactly(table, count, {Key(first)}, None, _ => 0.0);
  }

  lemma {:induction false} TakenAreThere(es: seq<Entry>, n: nat)
    ensures |Take(es, n)| <= n && Take(es, n) <= es
    ensures forall e :: e in Take(es, n) ==> e in es
  {
  }
}
