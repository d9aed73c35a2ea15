/**
 * How many traits a wallet has active: the request handler's limit of five (me.ts)
 * over runs of requests, and the exact condition under which a wallet keeps it.
 */
module TraitLimit {
  import opened Wrappers
  import opened JsonText
  import opened LootboxSampling
  import opened TraitActivation

  // ---------- Counting active traits ----------

  /** The owner's active rows. */
  function ActiveSlots(rows: Rows, owner: Owner): set<Slot> {
    set slot | slot in rows.Keys && slot.owner == owner && rows[slot].Some?
  }

  /** The keys of which the owner has an active value. */
  function ActiveKeys(rows: Rows, owner: Owner): set<Text> {
    set slot | slot in ActiveSlots(rows, owner) :: slot.traitKey
  }

  function SelectedKeys(sels: seq<Selection>): set<Text> {
    set sel | sel in sels :: sel.traitKey
  }

  /** Every key of the owner has at most one active value. */
  ghost predicate OneActivePerKey(rows: Rows, owner: Owner) {
    forall key :: OneActive(rows, owner, key)
  }

  /** The selections are complete and the owner has unlocked them. */
  predicate Ready(rows: Rows, owner: Owner, sels: seq<Selection>) {
    (forall i :: 0 <= i < |sels| ==> Usable(sels[i])) && AllUnlocked(rows, owner, sels)
  }

  lemma {:induction false} SameSize(slots: set<Slot>, keys: set<Text>)
    requires keys == set slot | slot in slots :: slot.traitKey
    requires forall x, y :: x in slots && y in slots && x.traitKey == y.traitKey ==> x == y
    ensures |slots| == |keys|
    decreases slots
  {
    if slots != {} {
      var x :| x in slots;
      var rest := set slot | slot in slots - {x} :: slot.traitKey;
      SameSize(slots - {x}, rest);
      assert x.traitKey !in rest;
      assert keys == rest + {x.traitKey};
    }
  }

  lemma {:induction false} ActiveSlotsAreKeys(rows: Rows, owner: Owner)
    requires OneActivePerKey(rows, owner)
    ensures |ActiveSlots(rows, owner)| == |ActiveKeys(rows, owner)|
  {
    forall x, y | x in ActiveSlots(rows, owner) && y in ActiveSlots(rows, owner) && x.traitKey == y.traitKey
      ensures x == y
    {
      assert OneActive(rows, owner, x.traitKey);
      assert Active(rows, Slot(owner, x.traitKey, x.traitValue));
      assert Active(rows, Slot(owner, y.traitKey, y.traitValue));
    }
    SameSize(ActiveSlots(rows, owner), ActiveKeys(rows, owner));
  }

  lemma {:induction false} KeyIsActive(rows: Rows, owner: Owner, slot: Slot)
    requires Active(rows, slot) && slot.owner == owner
    ensures slot.traitKey in ActiveKeys(rows, owner)
  {
    assert slot in ActiveSlots(rows, owner);
  }

  lemma {:induction false} SelectedKeyHasLast(sels: seq<Selection>, key: Text)
    requires forall i :: 0 <= i < |sels| ==> Usable(sels[i])
    ensures key in SelectedKeys(sels) <==> LastFor(sels, key).Some?
  {
    if key in SelectedKeys(sels) {
      var i :| 0 <= i < |sels| && sels[i].traitKey == key;
      assert Usable(sels[i]);
    }
  }

  /** After an activation of unlocked traits the active keys are those active before and the selected ones. */
  lemma {:induction false} KeysAfterActivation(rows: Rows, owner: Owner, sels: seq<Selection>, clock: nat -> int)
    requires Ready(rows, owner, sels)
    ensures ActiveKeys(Activated(rows, owner, sels, clock), owner) == ActiveKeys(rows, owner) + SelectedKeys(sels)
  {
    var t := Activated(rows, owner, sels, clock);
    forall key
      ensures key in ActiveKeys(t, owner) <==> key in ActiveKeys(rows, owner) || key in SelectedKeys(sels)
    {
      SelectedKeyHasLast(sels, key);
      if LastFor(sels, key).Some? {
        var sel := sels[LastFor(sels, key).value];
        assert sel in sels;
        ActivationIsLastWriteWins(rows, owner, sels, clock, Slot(owner, key, sel.traitValue));
        KeyIsActive(t, owner, Slot(owner, key, sel.traitValue));
      } else {
        UnselectedKey(rows, owner, sels, clock, key);
      }
    }
  }

  lemma {:induction false} UnselectedKey(rows: Rows, owner: Owner, sels: seq<Selection>, clock: nat -> int, key: Text)
    requires LastFor(sels, key).None?
    ensures key in ActiveKeys(Activated(rows, owner, sels, clock), owner) <==> key in ActiveKeys(rows, owner)
  {
    var t := Activated(rows, owner, sels, clock);
    if key in ActiveKeys(t, owner) {
      var slot :| slot in ActiveSlots(t, owner) && slot.traitKey == key;
      ActivationIsLastWriteWins(rows, owner, sels, clock, slot);
      KeyIsActive(rows, owner, slot);
    }
    if key in ActiveKeys(rows, owner) {
      var slot :| slot in ActiveSlots(rows, owner) && slot.traitKey == key;
      ActivationIsLastWriteWins(rows, owner, sels, clock, slot);
      KeyIsActive(t, owner, slot);
    }
  }

  lemma {:induction false} ActivationKeepsOnePerKey(
      rows: Rows, owner: Owner, other: Owner, sels: seq<Selection>, clock: nat -> int)
    requires OneActivePerKey(rows, owner)
    ensures OneActivePerKey(Activated(rows, other, sels, clock), owner)
  {
    forall key
      ensures OneActive(Activated(rows, other, sels, clock), owner, key)
    {
      StepKeepsOneActive(rows, ActivateOp(other, sels, clock), owner, key);
    }
  }

  /** An activation of unlocked traits leaves as many active as there are keys active before or selected. */
  lemma {:induction false} ActiveAfterActivation(rows: Rows, owner: Owner, sels: seq<Selection>, clock: nat -> int)
    requires OneActivePerKey(rows, owner) && Ready(rows, owner, sels)
    ensures |ActiveSlots(Activated(rows, owner, sels, clock), owner)|
         == |ActiveKeys(rows, owner) + SelectedKeys(sels)|
  {
    ActivationKeepsOnePerKey(rows, owner, owner, sels, clock);
    ActiveSlotsAreKeys(Activated(rows, owner, sels, clock), owner);
    KeysAfterActivation(rows, owner, sels, clock);
  }

  /** An accepted request leaves at most five traits active exactly if the active and the selected keys are
      at most five together. */
  lemma {:induction false} RequestKeepsLimitExactly(
      rows: Rows, owner: Owner, raws: seq<RawSelection>, clock: nat -> int)
    requires OneActivePerKey(rows, owner) && Accepted(rows, owner, raws).Some?
    ensures var sels := Accepted(rows, owner, raws).value;
      |ActiveSlots(Activated(rows, owner, sels, clock), owner)| <= MAX_ACTIVE
      <==> |ActiveKeys(rows, owner) + SelectedKeys(sels)| <= MAX_ACTIVE
  {
    ActiveAfterActivation(rows, owner, Accepted(rows, owner, raws).value, clock);
  }

  // ---------- Runs of requests ----------

  /** A workflow run submitted for an accepted request. */
  datatype Submission = Submission(owner: Owner, sels: seq<Selection>)

  datatype Tables = Tables(rows: Rows, submissions: seq<Submission>)

  const EMPTY: Tables := Tables(map[], [])

  /** Traits are unlocked; a request is made, which activates at once in demo mode; and the poller
      activates for a submission that has succeeded. */
  datatype Op =
    | UnlockOp(owner: Owner, traits: seq<Selection>)
    | RequestOp(owner: Owner, raws: seq<RawSelection>, demo: bool, now: int)
    | FinishOp(index: nat, clock: nat -> int)

  /** The selections an operation activates, if any, and whose. */
  function Activation(s: Tables, op: Op): Option<Submission> {
    match op
    case UnlockOp(_, _) => None
    case RequestOp(owner, raws, demo, _) =>
      var sels := Accepted(s.rows, owner, raws);
      if demo && sels.Some? then Some(Submission(owner, sels.value)) else None
    case FinishOp(i, _) => if i < |s.submissions| then Some(s.submissions[i]) else None
  }

  function ClockOf(op: Op): nat -> int {
    match op
    case RequestOp(_, _, _, now) => _ => now
    case FinishOp(_, clock) => clock
    case UnlockOp(_, _) => _ => 0
  }

  function Submitted(s: Tables, op: Op): seq<Submission> {
    if op.RequestOp? && Accepted(s.rows, op.owner, op.raws).Some?
    then [Submission(op.owner, Accepted(s.rows, op.owner, op.raws).value)]
    else []
  }

  function Step(s: Tables, op: Op): Tables {
    var a := Activation(s, op);
    Tables(
      if op.UnlockOp? then Unlocked(s.rows, op.owner, op.traits)
      else if a.Some? then Activated(s.rows, a.value.owner, a.value.sels, ClockOf(op))
      else s.rows,
      s.submissions + Submitted(s, op))
  }

  function Run(ops: seq<Op>): Tables {
    if ops == [] then EMPTY else Step(Run(ops[..|ops| - 1]), ops[|ops| - 1])
  }

  /** Every submission's traits are unlocked, and each key has at most one active value. */
  ghost predicate Orderly(s: Tables) {
    && (forall owner :: OneActivePerKey(s.rows, owner))
    && (forall i :: 0 <= i < |s.submissions| ==> Ready(s.rows, s.submissions[i].owner, s.submissions[i].sels))
  }

  lemma {:induction false} ActivationIsReady(s: Tables, op: Op)
    requires Orderly(s) && Activation(s, op).Some?
    ensures var a := Activation(s, op).value; Ready(s.rows, a.owner, a.sels)
  {
  }

  lemma {:induction false} RowsStay(s: Tables, op: Op)
    ensures s.rows.Keys <= Step(s, op).rows.Keys
  {
  }

  lemma {:induction false} UnlockingKeepsOnePerKey(rows: Rows, other: Owner, traits: seq<Selection>, owner: Owner)
    requires OneActivePerKey(rows, owner)
    ensures OneActivePerKey(Unlocked(rows, other, traits), owner)
  {
    forall key
      ensures OneActive(Unlocked(rows, other, traits), owner, key)
    {
      StepKeepsOneActive(rows, TraitActivation.UnlockOp(other, traits), owner, key);
    }
  }

  lemma {:induction false} StepKeepsOnePerKey(s: Tables, op: Op, owner: Owner)
    requires OneActivePerKey(s.rows, owner)
    ensures OneActivePerKey(Step(s, op).rows, owner)
  {
    var a := Activation(s, op);
    if op.UnlockOp? {
      UnlockingKeepsOnePerKey(s.rows, op.owner, op.traits, owner);
    } else if a.Some? {
      ActivationKeepsOnePerKey(s.rows, owner, a.value.owner, a.value.sels, ClockOf(op));
    }
  }

  lemma {:induction false} AlwaysOrderly(ops: seq<Op>)
    ensures Orderly(Run(ops))
  {
    if ops != [] {
      var s, op := Run(ops[..|ops| - 1]), ops[|ops| - 1];
      AlwaysOrderly(ops[..|ops| - 1]);
      var t := Step(s, op);
      forall owner
        ensures OneActivePerKey(t.rows, owner)
      {
        StepKeepsOnePerKey(s, op, owner);
      }
      RowsStay(s, op);
      forall i | 0 <= i < |t.submissions|
        ensures Ready(t.rows, t.submissions[i].owner, t.submissions[i].sels)
      {
        if i < |s.submissions| {
          assert t.submissions[i] == s.submissions[i];
        } else {
          assert t.submissions[i] == Submitted(s, op)[0];
        }
      }
    }
  }

  lemma {:induction false} OthersLeaveTheOwner(
      rows: Rows, other: Owner, sels: seq<Selection>, clock: nat -> int, owner: Owner)
    requires other != owner
    ensures ActiveSlots(Activated(rows, other, sels, clock), owner) == ActiveSlots(rows, owner)
  {
  }

  lemma {:induction false} UnlockingActivatesNothing(rows: Rows, other: Owner, traits: seq<Selection>, owner: Owner)
    ensures ActiveSlots(Unlocked(rows, other, traits), owner) == ActiveSlots(rows, owner)
  {
  }

  /** The keys of which the owner has an active value after an operation, as far as can be told before it. */
  function KeysDue(s: Tables, op: Op, owner: Owner): set<Text> {
    var a := Activation(s, op);
    ActiveKeys(s.rows, owner) + if a.Some? && a.value.owner == owner then SelectedKeys(a.value.sels) else {}
  }

  /** In every reachable state an operation leaves as many traits active as keys were due. */
  lemma {:induction false} StepCountsKeys(ops: seq<Op>, op: Op, owner: Owner)
    ensures |ActiveSlots(Step(Run(ops), op).rows, owner)| == |KeysDue(Run(ops), op, owner)|
  {
    var s := Run(ops);
    AlwaysOrderly(ops);
    ActiveSlotsAreKeys(s.rows, owner);
    var a := Activation(s, op);
    if op.UnlockOp? {
      UnlockingActivatesNothing(s.rows, op.owner, op.traits, owner);
      assert KeysDue(s, op, owner) == ActiveKeys(s.rows, owner);
    } else if a.Some? && a.value.owner == owner {
      ActivationIsReady(s, op);
      ActiveAfterActivation(s.rows, owner, a.value.sels, ClockOf(op));
    } else {
      if a.Some? {
        OthersLeaveTheOwner(s.rows, a.value.owner, a.value.sels, ClockOf(op), owner);
      }
      assert KeysDue(s, op, owner) == ActiveKeys(s.rows, owner);
    }
  }

  /** In no state of a run has the owner more than five traits active. */
  predicate NeverAboveLimit(ops: seq<Op>, owner: Owner) {
    |ActiveSlots(Run(ops).rows, owner)| <= MAX_ACTIVE && (ops != [] ==> NeverAboveLimit(ops[..|ops| - 1], owner))
  }

  /** Before each activation of a run the owner's active keys and the selected ones are at most five. */
  predicate KeysWithinLimit(ops: seq<Op>, owner: Owner) {
    ops != [] ==>
      var before, op := ops[..|ops| - 1], ops[|ops| - 1];
      && KeysWithinLimit(before, owner)
      && (Activation(Run(before), op).Some? ==> |KeysDue(Run(before), op, owner)| <= MAX_ACTIVE)
  }

  /** A wallet never has more than five active traits exactly if its active keys and those of each request that
      is put into effect are at most five together. */
  lemma {:induction false} WithinLimitExactly(ops: seq<Op>, owner: Owner)
    ensures NeverAboveLimit(ops, owner) <==> KeysWithinLimit(ops, owner)
  {
    if ops == [] {
      assert ActiveSlots(map[], owner) == {};
    } else {
      var before, op := ops[..|ops| - 1], ops[|ops| - 1];
      var s := Run(before);
      WithinLimitExactly(before, owner);
      StepCountsKeys(before, op, owner);
      if Activation(s, op).None? {
        AlwaysOrderly(before);
        ActiveSlotsAreKeys(s.rows, owner);
        assert KeysDue(s, op, owner) == ActiveKeys(s.rows, owner);
        assert NeverAboveLimit(before, owner) ==> |ActiveSlots(s.rows, owner)| <= MAX_ACTIVE;
      }
    }
  }

  // ---------- Runs above the limit ----------

  /** A key of the given length. */
  function KeyOf(n: nat): Text {
    seq(n + 1, _ => 0x61)
  }

  function RequestFor(n: nat): RawSelection {
    RawSelection(KeyOf(n), [], KeyOf(0))
  }

  lemma {:induction false} RequestIsRead(n: nat)
    ensures var sel := Selection(KeyOf(n), KeyOf(0));
      UniqueSelections(ReadSelections([RequestFor(n)])) == [sel]
  {
    var sels := ReadSelections([RequestFor(n)]);
    assert Trim(KeyOf(n)) == KeyOf(n) && Trim(KeyOf(0)) == KeyOf(0);
    assert sels == [Selection(KeyOf(n), KeyOf(0))];
    assert sels[..0] == [] && UniqueSelections([]) == [];
  }

  /** Every request of the sequence asks for a single trait and is accepted. */
  predicate AcceptedOneByOne(ops: seq<Op>) {
    ops != [] ==>
      var before, op := ops[..|ops| - 1], ops[|ops| - 1];
      && AcceptedOneByOne(before)
      && (op.RequestOp? ==> |op.raws| == 1 && Accepted(Run(before).rows, op.owner, op.raws).Some?)
  }

  lemma {:induction false} FreshTraitIsAccepted(rows: Rows, owner: Owner, n: nat)
    ensures var sel := Selection(KeyOf(n), KeyOf(0));
      && Accepted(Unlocked(rows, owner, [sel]), owner, [RequestFor(n)]) == Some([sel])
      && Ready(Unlocked(rows, owner, [sel]), owner, [sel])
  {
    RequestIsRead(n);
    var sel := Selection(KeyOf(n), KeyOf(0));
    assert sel in [sel];
    assert Slot(owner, sel.traitKey, sel.traitValue) in SlotsOf(owner, [sel]);
  }

  lemma {:induction false} ActivationAddsKey(rows: Rows, owner: Owner, sel: Selection, clock: nat -> int)
    requires Ready(Unlocked(rows, owner, [sel]), owner, [sel])
    ensures ActiveKeys(Activated(Unlocked(rows, owner, [sel]), owner, [sel], clock), owner)
         == ActiveKeys(rows, owner) + {sel.traitKey}
  {
    UnlockingActivatesNothing(rows, owner, [sel], owner);
    KeysAfterActivation(Unlocked(rows, owner, [sel]), owner, [sel], clock);
    assert SelectedKeys([sel]) == {sel.traitKey};
  }

  lemma {:induction false} AcceptedExtends(before: seq<Op>, op: Op)
    requires AcceptedOneByOne(before)
    requires op.RequestOp? ==> |op.raws| == 1 && Accepted(Run(before).rows, op.owner, op.raws).Some?
    ensures AcceptedOneByOne(before + [op]) && Run(before + [op]) == Step(Run(before), op)
  {
    assert (before + [op])[..|before|] == before;
  }

  lemma {:induction false} AcceptedRequestActivates(s: Tables, owner: Owner, raws: seq<RawSelection>)
    requires Accepted(s.rows, owner, raws).Some?
    ensures var request := RequestOp(owner, raws, true, 0);
      Step(s, request).rows == Activated(s.rows, owner, Accepted(s.rows, owner, raws).value, ClockOf(request))
  {
  }

  lemma {:induction false} OneMoreRequest(before: seq<Op>, owner: Owner, n: nat) returns (ops: seq<Op>)
    requires AcceptedOneByOne(before)
    ensures AcceptedOneByOne(ops)
    ensures ActiveKeys(Run(ops).rows, owner) == ActiveKeys(Run(before).rows, owner) + {KeyOf(n)}
  {
    var sel := Selection(KeyOf(n), KeyOf(0));
    var unlock, request := Op.UnlockOp(owner, [sel]), RequestOp(owner, [RequestFor(n)], true, 0);
    var middle := before + [unlock];
    AcceptedExtends(before, unlock);
    assert Run(middle).rows == Unlocked(Run(before).rows, owner, [sel]);
    FreshTraitIsAccepted(Run(before).rows, owner, n);
    AcceptedExtends(middle, request);
    AcceptedRequestActivates(Run(middle), owner, [RequestFor(n)]);
    ActivationAddsKey(Run(before).rows, owner, sel, ClockOf(request));
    ops := middle + [request];
  }

  lemma {:induction false} ManyKeys(owner: Owner, n: nat) returns (ops: seq<Op>)
    ensures AcceptedOneByOne(ops)
    ensures ActiveKeys(Run(ops).rows, owner) == set k | 0 <= k < n :: KeyOf(k)
  {
    if n == 0 {
      ops := [];
      assert ActiveSlots(map[], owner) == {};
    } else {
      var before := ManyKeys(owner, n - 1);
      ops := OneMoreRequest(before, owner, n - 1);
    }
  }

  lemma {:induction false} KeyCount(n: nat)
    ensures |set k | 0 <= k < n :: KeyOf(k)| == n
  {
    if n > 0 {
      KeyCount(n - 1);
      var fewer, keys := set k | 0 <= k < n - 1 :: KeyOf(k), set k | 0 <= k < n :: KeyOf(k);
      assert forall k :: 0 <= k < n - 1 ==> |KeyOf(k)| == k + 1;
      assert |KeyOf(n - 1)| == n && KeyOf(n - 1) !in fewer;
      assert keys == fewer + {KeyOf(n - 1)};
    }
  }

  /** The limit holds for a request, not for a wallet: any number of traits gets active by accepted requests for
      one trait each. */
  lemma {:induction false} ActiveTraitsAreUnbounded(owner: Owner, n: nat) returns (ops: seq<Op>)
    ensures AcceptedOneByOne(ops) && |ActiveSlots(Run(ops).rows, owner)| == n
  {
    ops := ManyKeys(owner, n);
    KeyCount(n);
    AlwaysOrderly(ops);
    ActiveSlotsAreKeys(Run(ops).rows, owner);
  }
}
