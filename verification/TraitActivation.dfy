/**
 * Activating unlocked traits: the request handler's loop in demo mode (me.ts) and
 * the run poller's loop (krnlRunPoller.ts), against one closed form.
 */
module TraitActivation {
  import opened Wrappers
  import opened JsonText
  import LootboxSampling

  datatype Selection = Selection(traitKey: Text, traitValue: Text)

  datatype Owner = Owner(brand: string, wallet: string)

  /** The unique key of an `unlockedTrait` row. */
  datatype Slot = Slot(owner: Owner, traitKey: Text, traitValue: Text)

  /** Each unlocked trait with `activeAt`, which is set exactly while the trait is active. */
  type Rows = map<Slot, Option<int>>

  // ---------- The closed form ----------

  /** A selection with both parts present; others are skipped. */
  predicate Usable(sel: Selection) {
    sel.traitKey != [] && sel.traitValue != []
  }

  /** The position of the last usable selection for a key. */
  function LastFor(sels: seq<Selection>, key: Text): (i: Option<nat>)
    ensures i.Some? ==> i.value < |sels| && Usable(sels[i.value]) && sels[i.value].traitKey == key
    ensures i.Some? ==> forall j :: i.value < j < |sels| && Usable(sels[j]) ==> sels[j].traitKey != key
    ensures i.None? ==> forall j :: 0 <= j < |sels| && Usable(sels[j]) ==> sels[j].traitKey != key
  {
    if sels == [] then None
    else
      var n := |sels| - 1;
      if Usable(sels[n]) && sels[n].traitKey == key then Some(n) else LastFor(sels[..n], key)
  }

  /**
   * Last write wins: for each selected key of the owner the last selected value is
   * active, if it is unlocked, and no other; everything else is as it was.
   */
  function Activated(rows: Rows, owner: Owner, sels: seq<Selection>, clock: nat -> int): Rows {
    map slot | slot in rows ::
      var last := LastFor(sels, slot.traitKey);
      if slot.owner != owner || last.None? then rows[slot]
      else if sels[last.value].traitValue == slot.traitValue then Some(clock(last.value))
      else None
  }

  // ---------- The loops ----------

  /** `updateMany`: the key's active values other than the selected one are switched off. */
  function SwitchOff(rows: Rows, owner: Owner, sel: Selection): Rows {
    map slot | slot in rows ::
      if slot.owner == owner && slot.traitKey == sel.traitKey && rows[slot].Some? && slot.traitValue != sel.traitValue
      then None else rows[slot]
  }

  /** `updateMany`: the selected value is switched on, if there is such a row. */
  function SwitchOn(rows: Rows, owner: Owner, sel: Selection, now: int): Rows {
    map slot | slot in rows ::
      if slot == Slot(owner, sel.traitKey, sel.traitValue) then Some(now) else rows[slot]
  }

  lemma {:induction false} OneMoreSelection(
      rows: Rows, owner: Owner, sels: seq<Selection>, sel: Selection, clock: nat -> int)
    requires Usable(sel)
    ensures SwitchOn(SwitchOff(Activated(rows, owner, sels, clock), owner, sel), owner, sel, clock(|sels|))
         == Activated(rows, owner, sels + [sel], clock)
  {
    var longer := sels + [sel];
    assert longer[..|longer| - 1] == sels;
    forall key
      ensures LastFor(longer, key) == if key == sel.traitKey then Some(|sels|) else LastFor(sels, key)
    {
    }
  }

  class TraitTable {
    var rows: Rows

    constructor ()
      ensures rows == map[]
    {
      rows := map[];
    }

    /** `createMany` with `skipDuplicates`: new rows start inactive, existing ones keep their state. */
    method Unlock(owner: Owner, traits: seq<Selection>)
      modifies this
      ensures rows == Unlocked(old(rows), owner, traits)
    {
      for i := 0 to |traits|
        invariant rows == Unlocked(old(rows), owner, traits[..i])
      {
        assert traits[..i + 1] == traits[..i] + [traits[i]];
        SlotsExtend(owner, traits[..i], traits[i]);
        var slot := Slot(owner, traits[i].traitKey, traits[i].traitValue);
        if slot !in rows {
          rows := rows[slot := None];
        }
      }
      assert traits[..|traits|] == traits;
    }

    /** The demo-mode transaction of the request handler: one time stamp for all. */
    method ActivateInDemoMode(owner: Owner, sels: seq<Selection>, now: int)
      requires forall i :: 0 <= i < |sels| ==> Usable(sels[i])
      modifies this
      ensures rows == Activated(old(rows), owner, sels, _ => now)
    {
      ghost var clock: nat -> int := _ => now;
      for i := 0 to |sels|
        invariant rows == Activated(old(rows), owner, sels[..i], clock)
      {
        rows := SwitchOff(rows, owner, sels[i]);
        rows := SwitchOn(rows, owner, sels[i], now);
        OneMoreSelection(old(rows), owner, sels[..i], sels[i], clock);
        assert sels[..i + 1] == sels[..i] + [sels[i]];
      }
      assert sels[..|sels|] == sels;
    }

    /** The poller's transaction for a succeeded run: incomplete selections are skipped, each write reads the clock. */
    method ActivateForRun(owner: Owner, sels: seq<Selection>, clock: nat -> int)
      modifies this
      ensures rows == Activated(old(rows), owner, sels, clock)
    {
      for i := 0 to |sels|
        invariant rows == Activated(old(rows), owner, sels[..i], clock)
      {
        assert sels[..i + 1] == sels[..i] + [sels[i]];
        if sels[i].traitKey == [] || sels[i].traitValue == [] {
          SkippedSelection(old(rows), owner, sels[..i], sels[i], clock);
          continue;
        }
        rows := SwitchOff(rows, owner, sels[i]);
        rows := SwitchOn(rows, owner, sels[i], clock(i));
        OneMoreSelection(old(rows), owner, sels[..i], sels[i], clock);
      }
      assert sels[..|sels|] == sels;
    }
  }

  lemma {:induction false} SlotsExtend(owner: Owner, sels: seq<Selection>, sel: Selection)
    ensures SlotsOf(owner, sels + [sel]) == SlotsOf(owner, sels) + {Slot(owner, sel.traitKey, sel.traitValue)}
  {
  }

  lemma {:induction false} SkippedSelection(
      rows: Rows, owner: Owner, sels: seq<Selection>, sel: Selection, clock: nat -> int)
    requires !Usable(sel)
    ensures Activated(rows, owner, sels + [sel], clock) == Activated(rows, owner, sels, clock)
  {
    assert (sels + [sel])[..|sels|] == sels;
  }

  function Unlocked(rows: Rows, owner: Owner, traits: seq<Selection>): Rows {
    map slot | slot in rows.Keys + SlotsOf(owner, traits) :: if slot in rows then rows[slot] else None
  }

  // ---------- The request ----------

  const MAX_ACTIVE: nat := 5

  function SelectionKey(sel: Selection): Text {
    sel.traitKey + LootboxSampling.SEPARATOR + sel.traitValue
  }

  predicate Repeats(sels: seq<Selection>, sel: Selection) {
    exists i :: 0 <= i < |sels| && SelectionKey(sels[i]) == SelectionKey(sel)
  }

  /** The complete selections, each at its first occurrence. */
  function UniqueSelections(sels: seq<Selection>): (us: seq<Selection>)
    ensures forall i :: 0 <= i < |us| ==> Usable(us[i])
    ensures forall i, j :: 0 <= i < j < |us| ==> SelectionKey(us[i]) != SelectionKey(us[j])
  {
    if sels == [] then []
    else
      var us, sel := UniqueSelections(sels[..|sels| - 1]), sels[|sels| - 1];
      if !Usable(sel) || Repeats(us, sel) then us else us + [sel]
  }

  /** The seen keys are those of the selections kept so far. */
  ghost predicate SeenKeys(seen: set<Text>, unique: seq<Selection>) {
    forall key :: key in seen <==> exists j :: 0 <= j < |unique| && SelectionKey(unique[j]) == key
  }

  lemma {:induction false} SeenExtends(seen: set<Text>, unique: seq<Selection>, sel: Selection)
    requires SeenKeys(seen, unique)
    ensures SeenKeys(seen + {SelectionKey(sel)}, unique + [sel])
  {
    var longer := unique + [sel];
    assert forall j :: 0 <= j < |unique| ==> longer[j] == unique[j];
    assert longer[|unique|] == sel;
  }

  /** The selection at a position is complete, and none before it differs from it but has the same combined key. */
  predicate FirstOfItsKey(sels: seq<Selection>, k: nat)
    requires k < |sels|
  {
    && sels[k].traitKey != [] && sels[k].traitValue != []
    && forall j :: 0 <= j < k && sels[j].traitKey != [] && sels[j].traitValue != [] && sels[j] != sels[k] ==>
         sels[j].traitKey + [0x3A, 0x3A] + sels[j].traitValue != sels[k].traitKey + [0x3A, 0x3A] + sels[k].traitValue
  }

  /** A key and value are listed, and not covered by another pair of the same combined key before. */
  predicate Listed(sels: seq<Selection>, sel: Selection) {
    exists k :: 0 <= k < |sels| && sels[k] == sel && FirstOfItsKey(sels, k)
  }

  lemma {:induction false} KeptKeys(sels: seq<Selection>, sel: Selection)
    ensures Repeats(UniqueSelections(sels), sel)
      <==> exists j :: 0 <= j < |sels| && Usable(sels[j]) && SelectionKey(sels[j]) == SelectionKey(sel)
  {
    if sels != [] {
      var n := |sels| - 1;
      var us, last := UniqueSelections(sels[..n]), sels[n];
      KeptKeys(sels[..n], sel);
      KeptKeys(sels[..n], last);
      if Repeats(us, sel) {
        var i :| 0 <= i < |us| && SelectionKey(us[i]) == SelectionKey(sel);
        assert i < |UniqueSelections(sels)| && UniqueSelections(sels)[i] == us[i];
      }
      if Usable(last) && !Repeats(us, last) {
        assert UniqueSelections(sels)[|us|] == last;
      }
    }
  }

  lemma {:induction false} ListedStep(sels: seq<Selection>, sel: Selection)
    requires sels != []
    ensures var n := |sels| - 1;
      Listed(sels, sel) <==> Listed(sels[..n], sel) || (sels[n] == sel && FirstOfItsKey(sels, n))
  {
    var n := |sels| - 1;
    var before := sels[..n];
    forall k | 0 <= k < n
      ensures FirstOfItsKey(before, k) <==> FirstOfItsKey(sels, k)
    {
      assert forall j :: 0 <= j <= k ==> before[j] == sels[j];
    }
    if Listed(before, sel) {
      var k :| 0 <= k < |before| && before[k] == sel && FirstOfItsKey(before, k);
      assert sels[k] == sel && FirstOfItsKey(sels, k);
    }
    if Listed(sels, sel) && !(sels[n] == sel && FirstOfItsKey(sels, n)) {
      var k :| 0 <= k < |sels| && sels[k] == sel && FirstOfItsKey(sels, k);
      assert before[k] == sel && FirstOfItsKey(before, k);
    }
  }

  /** What is kept are exactly the complete selections that are the first of their combined key. */
  lemma {:induction false} KeptExactly(sels: seq<Selection>, sel: Selection)
    ensures sel in UniqueSelections(sels) <==> Listed(sels, sel)
  {
    if sels != [] {
      var n := |sels| - 1;
      var us, last := UniqueSelections(sels[..n]), sels[n];
      KeptExactly(sels[..n], sel);
      ListedStep(sels, sel);
      if sel == last && Usable(last) {
        LastIsKept(sels);
      }
    }
  }

  lemma {:induction false} LastIsKept(sels: seq<Selection>)
    requires sels != [] && Usable(sels[|sels| - 1])
    ensures var n := |sels| - 1;
      (!Repeats(UniqueSelections(sels[..n]), sels[n]) || Listed(sels[..n], sels[n]))
      <==> FirstOfItsKey(sels, n) || Listed(sels[..n], sels[n])
  {
    var n := |sels| - 1;
    var last := sels[n];
    KeptKeys(sels[..n], last);
    if FirstOfItsKey(sels, n) && Repeats(UniqueSelections(sels[..n]), last) {
      var j := FirstSame(sels[..n], last);
      assert sels[..n][j] == sels[j];
      assert sels[j] == last;
      assert FirstOfItsKey(sels[..n], j);
    }
  }

  /** The first complete selection with a given combined key. */
  lemma {:induction false} FirstSame(sels: seq<Selection>, sel: Selection) returns (j: nat)
    requires exists i :: 0 <= i < |sels| && Usable(sels[i]) && SelectionKey(sels[i]) == SelectionKey(sel)
    ensures j < |sels| && Usable(sels[j]) && SelectionKey(sels[j]) == SelectionKey(sel)
    ensures forall i :: 0 <= i < j && Usable(sels[i]) ==> SelectionKey(sels[i]) != SelectionKey(sel)
  {
    j := 0;
    while !(Usable(sels[j]) && SelectionKey(sels[j]) == SelectionKey(sel))
      invariant j < |sels|
      invariant forall i :: 0 <= i < j && Usable(sels[i]) ==> SelectionKey(sels[i]) != SelectionKey(sel)
      invariant exists i :: j <= i < |sels| && Usable(sels[i]) && SelectionKey(sels[i]) == SelectionKey(sel)
      decreases |sels| - j
    {
      j := j + 1;
    }
  }

  /** A selection as the request carries it; a text is what `String` makes of a part, and empty for a
      part that is falsy. */
  datatype RawSelection = RawSelection(traitKey: Text, traitName: Text, traitValue: Text)

  /** The name stands in for a missing key, and both parts are trimmed. */
  function ReadSelection(raw: RawSelection): Selection {
    var key := if raw.traitKey != [] then raw.traitKey else raw.traitName;
    Selection(LootboxSampling.Trim(key), LootboxSampling.Trim(raw.traitValue))
  }

  function ReadSelections(raws: seq<RawSelection>): (sels: seq<Selection>)
    ensures |sels| == |raws| && forall i :: 0 <= i < |raws| ==> sels[i] == ReadSelection(raws[i])
  {
    seq(|raws|, i requires 0 <= i < |raws| => ReadSelection(raws[i]))
  }

  /** The request handler's loop: selections are read, and each complete one kept at its first occurrence. */
  method CollectSelections(raws: seq<RawSelection>) returns (unique: seq<Selection>)
    ensures unique == UniqueSelections(ReadSelections(raws))
  {
    ghost var sels := ReadSelections(raws);
    var seen: set<Text> := {};
    unique := [];
    for i := 0 to |raws|
      invariant unique == UniqueSelections(sels[..i])
      invariant SeenKeys(seen, unique)
    {
      assert sels[..i + 1][..i] == sels[..i];
      var sel := ReadSelection(raws[i]);
      if sel.traitKey == [] || sel.traitValue == [] || SelectionKey(sel) in seen {
        continue;
      }
      SeenExtends(seen, unique, sel);
      seen := seen + {SelectionKey(sel)};
      unique := unique + [sel];
    }
    assert sels[..|sels|] == sels;
  }

  /** The poller's loop over the traits it found in a run's payload, whose parts are taken as they are. */
  method CollectCandidates(sels: seq<Selection>) returns (unique: seq<Selection>)
    ensures unique == UniqueSelections(sels)
  {
    var seen: set<Text> := {};
    unique := [];
    for i := 0 to |sels|
      invariant unique == UniqueSelections(sels[..i])
      invariant SeenKeys(seen, unique)
    {
      assert sels[..i + 1][..i] == sels[..i];
      var sel := sels[i];
      if sel.traitKey == [] || sel.traitValue == [] || SelectionKey(sel) in seen {
        continue;
      }
      SeenExtends(seen, unique, sel);
      seen := seen + {SelectionKey(sel)};
      unique := unique + [sel];
    }
    assert sels[..|sels|] == sels;
  }

  /** Spaces around the parts of a selection make no difference to the request. */
  lemma {:induction false} SpacesAroundPartsDoNotMatter(raw: RawSelection)
    ensures var sel := ReadSelection(raw);
      && LootboxSampling.Trimmed(sel.traitKey) && LootboxSampling.Trimmed(sel.traitValue)
      && ReadSelection(RawSelection(sel.traitKey, [], sel.traitValue)) == sel
      && ReadSelection(RawSelection([], sel.traitKey, sel.traitValue)) == sel
      && forall name :: sel.traitKey != [] ==> ReadSelection(RawSelection(sel.traitKey, name, sel.traitValue)) == sel
  {
    LootboxSampling.TrimIsIdempotent(if raw.traitKey != [] then raw.traitKey else raw.traitName);
    LootboxSampling.TrimIsIdempotent(raw.traitValue);
    LootboxSampling.TrimIsIdempotent([]);
  }

  predicate AllUnlocked(rows: Rows, owner: Owner, sels: seq<Selection>) {
    forall i :: 0 <= i < |sels| ==> Slot(owner, sels[i].traitKey, sels[i].traitValue) in rows
  }

  function SlotsOf(owner: Owner, sels: seq<Selection>): set<Slot> {
    set sel | sel in sels :: Slot(owner, sel.traitKey, sel.traitValue)
  }

  lemma {:induction false} SlotCount(owner: Owner, sels: seq<Selection>)
    requires forall i, j :: 0 <= i < j < |sels| ==> SelectionKey(sels[i]) != SelectionKey(sels[j])
    ensures |SlotsOf(owner, sels)| == |sels|
  {
    if sels != [] {
      var n := |sels| - 1;
      var last := Slot(owner, sels[n].traitKey, sels[n].traitValue);
      SlotCount(owner, sels[..n]);
      assert sels == sels[..n] + [sels[n]];
      assert SlotsOf(owner, sels) == SlotsOf(owner, sels[..n]) + {last};
      forall i | 0 <= i < n
        ensures Slot(owner, sels[i].traitKey, sels[i].traitValue) != last
      {
        assert SelectionKey(sels[i]) != SelectionKey(sels[n]);
      }
    }
  }

  /** Counting the rows found and comparing with the number asked for checks that every selection is unlocked. */
  lemma {:induction false} CountingChecksAll(rows: Rows, owner: Owner, sels: seq<Selection>)
    requires forall i, j :: 0 <= i < j < |sels| ==> SelectionKey(sels[i]) != SelectionKey(sels[j])
    ensures |rows.Keys * SlotsOf(owner, sels)| == |sels| <==> AllUnlocked(rows, owner, sels)
  {
    SlotCount(owner, sels);
    var found, asked := rows.Keys * SlotsOf(owner, sels), SlotsOf(owner, sels);
    assert found + (asked - found) == asked && found !! (asked - found);
    assert |asked| == |found| + |asked - found|;
    if AllUnlocked(rows, owner, sels) {
      assert asked - found == {};
    }
    if |found| == |sels| {
      assert asked - found == {};
      forall i | 0 <= i < |sels|
        ensures Slot(owner, sels[i].traitKey, sels[i].traitValue) in rows
      {
        assert Slot(owner, sels[i].traitKey, sels[i].traitValue) in asked;
      }
    }
  }

  /** What a request asks for, once read and checked; `None` is a rejected request. */
  function Accepted(rows: Rows, owner: Owner, raws: seq<RawSelection>): Option<seq<Selection>> {
    var us := UniqueSelections(ReadSelections(raws));
    if 1 <= |us| <= MAX_ACTIVE && AllUnlocked(rows, owner, us) then Some(us) else None
  }

  /** A request is accepted exactly if it lists one to five traits, and the owner has a row for each; what is
      accepted are these traits, each once. */
  lemma {:induction false} AcceptedExactly(rows: Rows, owner: Owner, raws: seq<RawSelection>)
    ensures var listed := set sel | sel in UniqueSelections(ReadSelections(raws));
      && (forall sel :: sel in listed <==> Listed(ReadSelections(raws), sel))
      && (Accepted(rows, owner, raws).Some?
          <==> 1 <= |listed| <= 5 && forall sel :: sel in listed ==> Slot(owner, sel.traitKey, sel.traitValue) in rows)
      && (Accepted(rows, owner, raws).Some? ==>
          var sels := Accepted(rows, owner, raws).value;
          |sels| == |listed| && forall sel :: sel in sels <==> sel in listed)
  {
    var us := UniqueSelections(ReadSelections(raws));
    forall sel
      ensures sel in us <==> Listed(ReadSelections(raws), sel)
    {
      KeptExactly(ReadSelections(raws), sel);
    }
    DistinctCount(us);
  }

  lemma {:induction false} DistinctCount(us: seq<Selection>)
    requires forall i, j :: 0 <= i < j < |us| ==> us[i] != us[j]
    ensures |set sel | sel in us| == |us|
  {
    if us != [] {
      var n := |us| - 1;
      DistinctCount(us[..n]);
      assert us == us[..n] + [us[n]];
      assert (set sel | sel in us) == (set sel | sel in us[..n]) + {us[n]};
    }
  }

  /** The handler's checks before a workflow is submitted. */
  method CheckRequest(table: TraitTable, owner: Owner, raws: seq<RawSelection>)
    returns (accepted: Option<seq<Selection>>)
    ensures accepted == Accepted(table.rows, owner, raws)
  {
    var unique := CollectSelections(raws);
    if unique == [] {
      return None;
    }
    if |unique| > MAX_ACTIVE {
      return None;
    }
    CountingChecksAll(table.rows, owner, unique);
    if |table.rows.Keys * SlotsOf(owner, unique)| != |unique| {
      return None;
    }
    return Some(unique);
  }

  // ---------- Properties ----------

  predicate Active(rows: Rows, slot: Slot) {
    slot in rows && rows[slot].Some?
  }

  /** At most one value of the key is active for the owner. */
  ghost predicate OneActive(rows: Rows, owner: Owner, key: Text) {
    forall v, v' :: Active(rows, Slot(owner, key, v)) && Active(rows, Slot(owner, key, v')) ==> v == v'
  }

  /** After an activation a selected key's only active value is its last selected one, if unlocked;
      other keys and owners are untouched. */
  lemma {:induction false} ActivationIsLastWriteWins(
      rows: Rows, owner: Owner, sels: seq<Selection>, clock: nat -> int, slot: Slot)
    ensures var t := Activated(rows, owner, sels, clock);
      var last := LastFor(sels, slot.traitKey);
      && (slot in t <==> slot in rows)
      && if slot.owner == owner && last.Some?
         then && (Active(t, slot) <==> slot in rows && slot.traitValue == sels[last.value].traitValue)
              && (Active(t, slot) ==> t[slot] == Some(clock(last.value)))
         else slot in rows ==> t[slot] == rows[slot]
  {
  }

  /** Whatever was active before, a selected key has at most one active value afterwards. */
  lemma {:induction false} ActivationRepairsSelectedKeys(
      rows: Rows, owner: Owner, sels: seq<Selection>, clock: nat -> int, key: Text)
    requires LastFor(sels, key).Some?
    ensures OneActive(Activated(rows, owner, sels, clock), owner, key)
  {
    var t := Activated(rows, owner, sels, clock);
    forall v, v' | Active(t, Slot(owner, key, v)) && Active(t, Slot(owner, key, v'))
      ensures v == v'
    {
      ActivationIsLastWriteWins(rows, owner, sels, clock, Slot(owner, key, v));
      ActivationIsLastWriteWins(rows, owner, sels, clock, Slot(owner, key, v'));
    }
  }

  /** The request handler and the poller, with whatever clocks, switch on the same traits. */
  lemma {:induction false} LoopsAgree(
      rows: Rows, owner: Owner, sels: seq<Selection>, clock: nat -> int, clock': nat -> int, slot: Slot)
    ensures Active(Activated(rows, owner, sels, clock), slot) <==> Active(Activated(rows, owner, sels, clock'), slot)
  {
    ActivationIsLastWriteWins(rows, owner, sels, clock, slot);
    ActivationIsLastWriteWins(rows, owner, sels, clock', slot);
  }

  datatype Op =
    | UnlockOp(owner: Owner, traits: seq<Selection>)
    | ActivateOp(owner: Owner, sels: seq<Selection>, clock: nat -> int)

  function Step(rows: Rows, op: Op): Rows {
    match op
    case UnlockOp(owner, traits) => Unlocked(rows, owner, traits)
    case ActivateOp(owner, sels, clock) => Activated(rows, owner, sels, clock)
  }

  function Run(rows: Rows, ops: seq<Op>): Rows {
    if ops == [] then rows else Step(Run(rows, ops[..|ops| - 1]), ops[|ops| - 1])
  }

  /** Any sequence of unlocks and activations keeps at most one active value per key. */
  lemma {:induction false} OneActiveAlways(rows: Rows, ops: seq<Op>, owner: Owner, key: Text)
    requires OneActive(rows, owner, key)
    ensures OneActive(Run(rows, ops), owner, key)
  {
    if ops != [] {
      var before, op := Run(rows, ops[..|ops| - 1]), ops[|ops| - 1];
      OneActiveAlways(rows, ops[..|ops| - 1], owner, key);
      StepKeepsOneActive(before, op, owner, key);
    }
  }

  lemma {:induction false} StepKeepsOneActive(rows: Rows, op: Op, owner: Owner, key: Text)
    requires OneActive(rows, owner, key)
    ensures OneActive(Step(rows, op), owner, key)
  {
    var t := Step(rows, op);
    if op.ActivateOp? && op.owner == owner && LastFor(op.sels, key).Some? {
      ActivationRepairsSelectedKeys(rows, owner, op.sels, op.clock, key);
    } else {
      assert forall v :: Active(t, Slot(owner, key, v)) ==> Active(rows, Slot(owner, key, v));
    }
  }
}
