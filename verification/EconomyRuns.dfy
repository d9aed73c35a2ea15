/**
 * What holds of every run of economy transactions, in any order, for any brands,
 * wallets, prices, tables, draws and redeliveries.
 */
module EconomyRuns {
  import opened Wrappers
  import opened JsonText
  import opened LootboxSampling
  import opened Economy

  datatype Op =
    | ReadXpOp(account: Account)
    | BuyOp(account: Account, quantity: int, price: int)
    | OpenOp(account: Account, cost: int, maxUnlocks: int, table: seq<Entry>, random: nat -> real)
    | WebhookOp(delivery: Delivery)
    | MintOp(account: Account, tokenId: string)

  function Step(s: Tables, op: Op): Tables {
    match op
    case ReadXpOp(a) => ReadXp(s, a)
    case BuyOp(a, quantity, price) => Buy(s, a, quantity, price)
    case OpenOp(a, cost, maxUnlocks, table, random) => Open(s, a, cost, maxUnlocks, table, random)
    case WebhookOp(d) => Deliver(s, d)
    case MintOp(a, tokenId) => RecordMint(s, a, tokenId)
  }

  /** The state after a run from the empty database. */
  function Run(ops: seq<Op>): Tables {
    if ops == [] then EMPTY else Step(Run(ops[..|ops| - 1]), ops[|ops| - 1])
  }

  // ---------- What each operation did, for the books ----------

  /** Keys an operation bought for an account. */
  function BoughtBy(s: Tables, op: Op, a: Account): int {
    if op.BuyOp? && op.account == a && CanBuy(s, a, op.quantity, op.price) then op.quantity else 0
  }

  predicate Opens(s: Tables, op: Op, a: Account) {
    op.OpenOp? && op.account == a && CanOpen(s, a, op.cost, op.maxUnlocks, op.table, op.random)
  }

  /** Keys an operation spent on opening for an account. */
  function SpentBy(s: Tables, op: Op, a: Account): int {
    if Opens(s, op, a) then Max(1, op.cost) else 0
  }

  /** Whether an operation filled in the default XP of an account. */
  predicate FillsDefault(s: Tables, op: Op, a: Account) {
    XpTotal(s, a) <= 0 &&
    ((op.ReadXpOp? && op.account == a) || (op.BuyOp? && op.account == a && CanBuy(s, a, op.quantity, op.price)))
  }

  function KeysBought(ops: seq<Op>, a: Account): int {
    if ops == [] then 0
    else KeysBought(ops[..|ops| - 1], a) + BoughtBy(Run(ops[..|ops| - 1]), ops[|ops| - 1], a)
  }

  function KeysSpent(ops: seq<Op>, a: Account): int {
    if ops == [] then 0
    else KeysSpent(ops[..|ops| - 1], a) + SpentBy(Run(ops[..|ops| - 1]), ops[|ops| - 1], a)
  }

  function DefaultFills(ops: seq<Op>, a: Account): nat {
    if ops == [] then 0
    else DefaultFills(ops[..|ops| - 1], a) + if FillsDefault(Run(ops[..|ops| - 1]), ops[|ops| - 1], a) then 1 else 0
  }

  function OpensBy(ops: seq<Op>, a: Account): nat {
    if ops == [] then 0
    else OpensBy(ops[..|ops| - 1], a) + if Opens(Run(ops[..|ops| - 1]), ops[|ops| - 1], a) then 1 else 0
  }

  /** The audit log's sums for an account. */
  function AuditedKeys(audits: seq<Audit>, a: Account): int {
    if audits == [] then 0
    else
      var last := audits[|audits| - 1];
      AuditedKeys(audits[..|audits| - 1], a) + if last.account == a then last.lootKeyDelta else 0
  }

  function AuditedXp(audits: seq<Audit>, a: Account): int {
    if audits == [] then 0
    else
      var last := audits[|audits| - 1];
      AuditedXp(audits[..|audits| - 1], a) + if last.account == a then last.xpDelta else 0
  }

  // ---------- The invariant ----------

  /** Every loot-key mirror row of an account that is there equals the economy balance;
      one that is missing is missing because the balance is 0. */
  predicate MirrorsAgree(s: Tables, a: Account) {
    && (if a in s.lootBalance then s.lootBalance[a] == Keys(s, a) else Keys(s, a) == 0)
    && (if a in s.lootLedger then s.lootLedger[a] == Keys(s, a) else Keys(s, a) == 0)
    && (if a in s.legacy then s.legacy[a].lootKeys == Keys(s, a) else Keys(s, a) == 0)
  }

  predicate RowNonNegative(s: Tables, a: Account) {
    XpTotal(s, a) >= 0 && Spent(s, a) >= 0 && Keys(s, a) >= 0
  }

  predicate Sound(s: Tables, a: Account) {
    RowNonNegative(s, a) && MirrorsAgree(s, a)
  }

  /** Writing a row moves the written account and its mirrors together, and no other account. */
  lemma {:induction false} WriteKeysEffect(s: Tables, b: Account, row: EconomyRow, totalXp: Option<int>, a: Account)
    ensures var t := WriteKeys(s, b, row, totalXp);
      && Keys(t, a) == (if a == b then row.lootKeys else Keys(s, a))
      && Spent(t, a) == (if a == b then row.xpSpent else Spent(s, a))
      && XpTotal(t, a) == (if a == b then row.zealyXpTotal else XpTotal(s, a))
      && (a == b || MirrorsAgree(s, a) ==> MirrorsAgree(t, a))
  {
  }

  /** The row an operation writes together with its mirrors, if it writes one. */
  function Written(s: Tables, op: Op): Option<EconomyRow> {
    match op
    case BuyOp(a, quantity, price) =>
      if !CanBuy(s, a, quantity, price) then None
      else
        var required := CalculatePurchaseXpRequired(quantity, price);
        Some(EconomyRow(EffectiveXpTotal(s, a), Spent(s, a) + required, Keys(s, a) + quantity))
    case OpenOp(a, cost, maxUnlocks, table, random) =>
      if !CanOpen(s, a, cost, maxUnlocks, table, random) then None
      else Some(EconomyRow(XpTotal(s, a), Spent(s, a), Keys(s, a) - Max(1, cost)))
    case WebhookOp(d) =>
      if !Applies(s, d) then None
      else
        var keys := ComputeWebhookCredits(d.rule, d.total.value).lootKeys;
        Some(EconomyRow(d.total.value, Spent(s, d.account), Keys(s, d.account) + keys))
    case _ => None
  }

  function Target(op: Op): Account {
    if op.WebhookOp? then op.delivery.account else op.account
  }

  predicate SameRows(s: Tables, t: Tables) {
    s.economy == t.economy && s.lootBalance == t.lootBalance && s.lootLedger == t.lootLedger && s.legacy == t.legacy
  }

  /** Every operation but the XP read and the mint either leaves the rows alone or writes one row with its mirrors. */
  lemma {:induction false} StepWrites(s: Tables, op: Op) returns (x: Option<int>)
    requires !op.ReadXpOp? && !op.MintOp?
    ensures Written(s, op).None? ==> SameRows(s, Step(s, op))
    ensures Written(s, op).Some? ==> SameRows(WriteKeys(s, Target(op), Written(s, op).value, x), Step(s, op))
  {
    match op
    case BuyOp(_, _, _) => x := BuyWrites(s, op);
    case OpenOp(_, _, _, _, _) => x := OpenWrites(s, op);
    case WebhookOp(_) => x := WebhookWrites(s, op);
  }

  lemma {:induction false} BuyWrites(s: Tables, op: Op) returns (x: Option<int>)
    requires op.BuyOp?
    ensures Written(s, op).None? ==> SameRows(s, Step(s, op))
    ensures Written(s, op).Some? ==> SameRows(WriteKeys(s, op.account, Written(s, op).value, x), Step(s, op))
  {
    x := if Written(s, op).None? then None
         else Some(CalculateXpAvailable(Written(s, op).value.zealyXpTotal, Written(s, op).value.xpSpent));
  }

  lemma {:induction false} OpenWrites(s: Tables, op: Op) returns (x: Option<int>)
    requires op.OpenOp?
    ensures Written(s, op).None? ==> SameRows(s, Step(s, op))
    ensures Written(s, op).Some? ==> SameRows(WriteKeys(s, op.account, Written(s, op).value, x), Step(s, op))
  {
    x := None;
    if Written(s, op).Some? {
      assert Written(s, op).value == s.economy[op.account].(lootKeys := Keys(s, op.account) - Max(1, op.cost));
    }
  }

  lemma {:induction false} DeliveryWrites(s: Tables, d: Delivery)
    ensures !Applies(s, d) ==> SameRows(s, Deliver(s, d))
    ensures Applies(s, d) ==>
      SameRows(WriteKeys(s, d.account, Written(s, WebhookOp(d)).value, Some(d.total.value)), Deliver(s, d))
  {
  }

  lemma {:induction false} WebhookWrites(s: Tables, op: Op) returns (x: Option<int>)
    requires op.WebhookOp?
    ensures Written(s, op).None? ==> SameRows(s, Step(s, op))
    ensures Written(s, op).Some? ==> SameRows(WriteKeys(s, op.delivery.account, Written(s, op).value, x), Step(s, op))
  {
    var d := op.delivery;
    assert op == WebhookOp(d) && Step(s, op) == Deliver(s, d);
    DeliveryWrites(s, d);
    x := if d.total.None? then None else Some(d.total.value);
  }

  lemma {:induction false} WrittenIsNonNegative(s: Tables, op: Op)
    requires Written(s, op).Some? && RowNonNegative(s, Target(op))
    ensures var row := Written(s, op).value;
      row.zealyXpTotal >= 0 && row.xpSpent >= 0 && row.lootKeys >= 0
  {
  }

  lemma {:induction false} SameRowsSameAccounts(s: Tables, t: Tables, a: Account)
    requires SameRows(s, t)
    ensures Keys(s, a) == Keys(t, a) && Spent(s, a) == Spent(t, a) && XpTotal(s, a) == XpTotal(t, a)
    ensures MirrorsAgree(s, a) == MirrorsAgree(t, a)
  {
  }

  /** What one step does to an account's row: at most what the operation writes, and only for its own account. */
  lemma {:induction false} StepEffect(s: Tables, op: Op, a: Account)
    requires !op.ReadXpOp? && !op.MintOp?
    ensures var t := Step(s, op);
      var row := Written(s, op);
      if row.Some? && a == Target(op) then
        && Keys(t, a) == row.value.lootKeys && Spent(t, a) == row.value.xpSpent
        && XpTotal(t, a) == row.value.zealyXpTotal && MirrorsAgree(t, a)
      else
        && Keys(t, a) == Keys(s, a) && Spent(t, a) == Spent(s, a) && XpTotal(t, a) == XpTotal(s, a)
        && (MirrorsAgree(s, a) ==> MirrorsAgree(t, a))
  {
    var x := StepWrites(s, op);
    if Written(s, op).Some? {
      WriteKeysEffect(s, Target(op), Written(s, op).value, x, a);
      SameRowsSameAccounts(WriteKeys(s, Target(op), Written(s, op).value, x), Step(s, op), a);
    } else {
      SameRowsSameAccounts(s, Step(s, op), a);
    }
  }

  lemma {:induction false} StepKeepsSound(s: Tables, op: Op, a: Account)
    requires Sound(s, a)
    ensures Sound(Step(s, op), a)
  {
    if !op.ReadXpOp? && !op.MintOp? {
      StepEffect(s, op, a);
      if Written(s, op).Some? && a == Target(op) {
        WrittenIsNonNegative(s, op);
      }
    }
  }

  /** The state of each account in every reachable state. */
  lemma {:induction false} AlwaysSound(ops: seq<Op>, a: Account)
    ensures Sound(Run(ops), a)
  {
    if ops != [] {
      AlwaysSound(ops[..|ops| - 1], a);
      StepKeepsSound(Run(ops[..|ops| - 1]), ops[|ops| - 1], a);
    }
  }

  // ---------- The balance endpoint ----------

  /** The fallback chain of the balance endpoint, for whichever rows it finds. */
  function BalanceRead(
      economy: Option<EconomyRow>, lootBalance: Option<int>, lootLedger: Option<int>, legacy: Option<LegacyRow>): int {
    if economy.Some? then economy.value.lootKeys
    else if lootBalance.Some? then lootBalance.value
    else if lootLedger.Some? then lootLedger.value
    else if legacy.Some? then Max(0, legacy.value.lootKeys)
    else 0
  }

  function Lookup<V>(m: map<Account, V>, a: Account, visible: bool): Option<V> {
    if visible && a in m then Some(m[a]) else None
  }

  /** The endpoint's answer when only some of the four tables are looked at. */
  function BalanceSeen(s: Tables, a: Account, e: bool, b: bool, l: bool, g: bool): int {
    BalanceRead(
      Lookup(s.economy, a, e), Lookup(s.lootBalance, a, b), Lookup(s.lootLedger, a, l), Lookup(s.legacy, a, g))
  }

  /** Whichever tables are looked at, as long as there is one, the endpoint reports the economy balance. */
  lemma {:induction false} FallbackChainIsConsistent(ops: seq<Op>, a: Account, e: bool, b: bool, l: bool, g: bool)
    requires e || b || l || g
    ensures BalanceSeen(Run(ops), a, e, b, l, g) == Keys(Run(ops), a) >= 0
  {
    AlwaysSound(ops, a);
  }

  // ---------- Conservation ----------

  lemma {:induction false} AuditsExtend(audits: seq<Audit>, x: Audit, a: Account)
    ensures AuditedKeys(audits + [x], a) == AuditedKeys(audits, a) + if x.account == a then x.lootKeyDelta else 0
    ensures AuditedXp(audits + [x], a) == AuditedXp(audits, a) + if x.account == a then x.xpDelta else 0
  {
    assert (audits + [x])[..|audits|] == audits;
  }

  /** The audit row an operation appends, if any. */
  function Audited(s: Tables, op: Op): Option<Audit> {
    if op.WebhookOp? && Applies(s, op.delivery) then
      var d := op.delivery;
      Some(Audit(d.account, d.questId, d.total.value - Max(0, XpTotal(s, d.account)),
                 ComputeWebhookCredits(d.rule, d.total.value).lootKeys, d.eventId))
    else None
  }

  lemma {:induction false} StepAudits(s: Tables, op: Op)
    ensures Step(s, op).audits == if Audited(s, op).Some? then s.audits + [Audited(s, op).value] else s.audits
  {
  }

  /** How one operation moves an account's balance and total. */
  lemma {:induction false} StepMoves(s: Tables, op: Op, a: Account)
    requires RowNonNegative(s, a)
    ensures var t := Step(s, op);
      var x := Audited(s, op);
      var mine := x.Some? && x.value.account == a;
      && Keys(t, a) - Keys(s, a) == BoughtBy(s, op, a) + (if mine then x.value.lootKeyDelta else 0) - SpentBy(s, op, a)
      && XpTotal(t, a) - XpTotal(s, a)
         == (if mine then x.value.xpDelta else 0) + (if FillsDefault(s, op, a) then DEMO_DEFAULT_XP else 0)
  {
    if !op.ReadXpOp? && !op.MintOp? {
      StepEffect(s, op, a);
    }
  }

  /** One operation moves the balance and the total by what the books say. */
  lemma {:induction false} StepBalances(s: Tables, op: Op, a: Account)
    requires RowNonNegative(s, a)
    ensures var t := Step(s, op);
      && Keys(t, a) - Keys(s, a)
         == BoughtBy(s, op, a) + (AuditedKeys(t.audits, a) - AuditedKeys(s.audits, a)) - SpentBy(s, op, a)
      && XpTotal(t, a) - XpTotal(s, a)
         == AuditedXp(t.audits, a) - AuditedXp(s.audits, a) + (if FillsDefault(s, op, a) then DEMO_DEFAULT_XP else 0)
  {
    StepMoves(s, op, a);
    StepAudits(s, op);
    if Audited(s, op).Some? {
      AuditsExtend(s.audits, Audited(s, op).value, a);
    }
  }

  /**
   * Loot keys are conserved over every run: the balance is keys bought plus keys
   * credited by audited webhooks minus keys spent on opening, and never negative.
   */
  lemma {:induction false} KeysAreConserved(ops: seq<Op>, a: Account)
    ensures Keys(Run(ops), a) == KeysBought(ops, a) + AuditedKeys(Run(ops).audits, a) - KeysSpent(ops, a)
    ensures Keys(Run(ops), a) >= 0
  {
    AlwaysSound(ops, a);
    if ops != [] {
      var before, op := ops[..|ops| - 1], ops[|ops| - 1];
      KeysAreConserved(before, a);
      AlwaysSound(before, a);
      StepBalances(Run(before), op, a);
    }
  }

  /** The audit log telescopes: audited XP plus 10000 for every default filled in is the recorded total. */
  lemma {:induction false} AuditTelescopes(ops: seq<Op>, a: Account)
    ensures XpTotal(Run(ops), a) == AuditedXp(Run(ops).audits, a) + DEMO_DEFAULT_XP * DefaultFills(ops, a)
  {
    if ops != [] {
      var before, op := ops[..|ops| - 1], ops[|ops| - 1];
      AuditTelescopes(before, a);
      AlwaysSound(before, a);
      StepBalances(Run(before), op, a);
    }
  }

  // ---------- At most one credit per event ----------

  /** Audit rows have distinct events, and those are exactly the processed ones. */
  ghost predicate AuditsMatchEvents(s: Tables) {
    && (forall i, j :: 0 <= i < j < |s.audits| ==> s.audits[i].eventId != s.audits[j].eventId)
    && (forall i :: 0 <= i < |s.audits| ==> IsProcessed(s, s.audits[i].eventId))
    && (forall e :: IsProcessed(s, e) ==> exists i :: 0 <= i < |s.audits| && s.audits[i].eventId == e)
  }

  predicate IsProcessed(s: Tables, e: string) {
    e in s.events && s.events[e] == Processed
  }

  lemma {:induction false} ApplyExtendsAudits(s: Tables, d: Delivery) returns (x: Audit)
    requires Applies(s, d)
    ensures x.eventId == d.eventId
    ensures Deliver(s, d).audits == s.audits + [x] && Deliver(s, d).events == s.events[d.eventId := Processed]
  {
    x := Deliver(s, d).audits[|s.audits|];
  }

  lemma {:induction false} ExtendedAuditsMatch(s: Tables, t: Tables, x: Audit)
    requires AuditsMatchEvents(s) && x.eventId !in s.events
    requires t.audits == s.audits + [x] && t.events == s.events[x.eventId := Processed]
    ensures AuditsMatchEvents(t)
  {
    assert t.audits[..|s.audits|] == s.audits && t.audits[|s.audits|] == x;
    assert forall i :: 0 <= i < |s.audits| ==> IsProcessed(s, s.audits[i].eventId);
    forall e | IsProcessed(t, e)
      ensures exists i :: 0 <= i < |t.audits| && t.audits[i].eventId == e
    {
      if e == x.eventId {
        assert t.audits[|s.audits|].eventId == e;
      } else {
        assert IsProcessed(s, e);
        var i :| 0 <= i < |s.audits| && s.audits[i].eventId == e;
        assert t.audits[i].eventId == e;
      }
    }
  }

  lemma {:induction false} ApplyKeepsAudits(s: Tables, d: Delivery)
    requires AuditsMatchEvents(s) && Applies(s, d)
    ensures AuditsMatchEvents(Deliver(s, d))
  {
    var x := ApplyExtendsAudits(s, d);
    ExtendedAuditsMatch(s, Deliver(s, d), x);
  }

  lemma {:induction false} OthersProcessNothing(s: Tables, op: Op, e: string)
    requires op.WebhookOp? ==> !Applies(s, op.delivery)
    ensures IsProcessed(Step(s, op), e) <==> IsProcessed(s, e)
  {
  }

  lemma {:induction false} StepKeepsAudits(s: Tables, op: Op)
    requires AuditsMatchEvents(s)
    ensures AuditsMatchEvents(Step(s, op))
  {
    if op.WebhookOp? && Applies(s, op.delivery) {
      ApplyKeepsAudits(s, op.delivery);
    } else {
      var t := Step(s, op);
      StepAudits(s, op);
      forall e
        ensures IsProcessed(t, e) <==> IsProcessed(s, e)
      {
        OthersProcessNothing(s, op, e);
      }
    }
  }

  /** However often events are delivered, each has at most one audit row, and one exactly when it was processed. */
  lemma {:induction false} OneAuditPerEvent(ops: seq<Op>)
    ensures AuditsMatchEvents(Run(ops))
  {
    if ops != [] {
      OneAuditPerEvent(ops[..|ops| - 1]);
      StepKeepsAudits(Run(ops[..|ops| - 1]), ops[|ops| - 1]);
    }
  }

  /** A redelivery changes nothing at all, whatever it says and whatever happened in between. */
  lemma {:induction false} RedeliveryIsIgnored(ops: seq<Op>, i: nat, d: Delivery)
    requires i < |ops| && ops[i].WebhookOp? && ops[i].delivery.eventId == d.eventId
    ensures Deliver(Run(ops), d) == Run(ops)
    decreases |ops|
  {
    var n := |ops| - 1;
    if i < n {
      RedeliveryIsIgnored(ops[..n], i, d);
      assert Deliver(Run(ops[..n]), d) == Run(ops[..n]);
      EventsStay(Run(ops[..n]), ops[n], d);
    }
  }

  lemma {:induction false} EventsStay(s: Tables, op: Op, d: Delivery)
    requires Deliver(s, d) == s
    ensures Deliver(Step(s, op), d) == Step(s, op)
  {
    var t := Deliver(s, d);
    assert d.eventId in t.events;
  }

  /** No operation delivers the event. */
  predicate NeverDelivered(ops: seq<Op>, e: string) {
    forall k :: 0 <= k < |ops| && ops[k].WebhookOp? ==> ops[k].delivery.eventId != e
  }

  lemma {:induction false} OnlyWebhooksWriteEvents(s: Tables, op: Op)
    requires !op.WebhookOp?
    ensures Step(s, op).events == s.events
  {
  }

  lemma {:induction false} DeliveryWritesItsEvent(s: Tables, d: Delivery)
    ensures Deliver(s, d).events.Keys == s.events.Keys + {d.eventId}
  {
  }

  lemma {:induction false} OthersDeliverNothing(s: Tables, op: Op, e: string)
    requires e !in s.events && (op.WebhookOp? ==> op.delivery.eventId != e)
    ensures e !in Step(s, op).events
  {
    if op.WebhookOp? {
      DeliveryWritesItsEvent(s, op.delivery);
    } else {
      OnlyWebhooksWriteEvents(s, op);
    }
  }

  lemma {:induction false} EventsAreDelivered(ops: seq<Op>, e: string)
    requires NeverDelivered(ops, e)
    ensures e !in Run(ops).events
  {
    if ops != [] {
      var before, op := ops[..|ops| - 1], ops[|ops| - 1];
      assert op.WebhookOp? ==> op.delivery.eventId != e;
      EventsAreDelivered(before, e);
      OthersDeliverNothing(Run(before), op, e);
    }
  }

  lemma {:induction false} EventStatusStays(s: Tables, op: Op, e: string)
    requires e in s.events
    ensures e in Step(s, op).events && Step(s, op).events[e] == s.events[e]
  {
    if op.WebhookOp? {
      assert Step(s, op) == Deliver(s, op.delivery);
    } else {
      OnlyWebhooksWriteEvents(s, op);
    }
  }

  lemma {:induction false} FirstDeliveryDecides(ops: seq<Op>, i: nat, e: string)
    requires i < |ops| && ops[i].WebhookOp? && ops[i].delivery.eventId == e && NeverDelivered(ops[..i], e)
    ensures e in Run(ops).events
    ensures IsProcessed(Run(ops), e) <==> ops[i].delivery.complete && ops[i].delivery.total.Some?
  {
    var n := |ops| - 1;
    if i < n {
      assert ops[..n][..i] == ops[..i];
      FirstDeliveryDecides(ops[..n], i, e);
      EventStatusStays(Run(ops[..n]), ops[n], e);
    } else {
      EventsAreDelivered(ops[..n], e);
    }
  }

  predicate HasAudit(s: Tables, e: string) {
    exists k :: 0 <= k < |s.audits| && s.audits[k].eventId == e
  }

  /**
   * An event is ever credited exactly if its first delivery reports a completion and goes through.
   * The ledger is never credited for a completed event whose first delivery throws after its row is created,
   * however often it is delivered again.
   */
  lemma {:induction false} CreditedExactlyByFirstDelivery(ops: seq<Op>, i: nat)
    requires i < |ops| && ops[i].WebhookOp? && NeverDelivered(ops[..i], ops[i].delivery.eventId)
    ensures HasAudit(Run(ops), ops[i].delivery.eventId) <==> ops[i].delivery.complete && ops[i].delivery.total.Some?
  {
    FirstDeliveryDecides(ops, i, ops[i].delivery.eventId);
    OneAuditPerEvent(ops);
  }

  /** What the first delivery of an event leaves in its row for ever. */
  lemma {:induction false} StatusTellsTheFirstDelivery(ops: seq<Op>, i: nat)
    requires i < |ops| && ops[i].WebhookOp? && NeverDelivered(ops[..i], ops[i].delivery.eventId)
    ensures var d := ops[i].delivery;
      && d.eventId in Run(ops).events
      && Run(ops).events[d.eventId]
         == if !d.complete then Ignored else if d.total.Some? then Processed else Received
  {
    var n, d := |ops| - 1, ops[i].delivery;
    if i < n {
      assert ops[..n][..i] == ops[..i];
      StatusTellsTheFirstDelivery(ops[..n], i);
      EventStatusStays(Run(ops[..n]), ops[n], d.eventId);
    } else {
      EventsAreDelivered(ops[..n], d.eventId);
    }
  }

  /** The audit row of a delivery: its account, quest and event, and the keys its rule credits. */
  predicate AuditsDelivery(x: Audit, d: Delivery) {
    && x.account == d.account && x.questId == d.questId && x.eventId == d.eventId
    && x.lootKeyDelta == (if d.rule.enabled && d.rule.lootKeysDelta > 0 then d.rule.lootKeysDelta else 0)
  }

  predicate DeliveredIn(ops: seq<Op>, x: Audit) {
    exists k :: 0 <= k < |ops| && ops[k].WebhookOp? && AuditsDelivery(x, ops[k].delivery)
  }

  lemma {:induction false} NewAuditTellsItsDelivery(s: Tables, op: Op)
    ensures var t := Step(s, op);
      t.audits == s.audits
      || (op.WebhookOp? && |t.audits| == |s.audits| + 1 && t.audits[..|s.audits|] == s.audits
          && AuditsDelivery(t.audits[|s.audits|], op.delivery))
  {
    StepAudits(s, op);
  }

  /** Every audit row tells of a delivery of the run. */
  lemma {:induction false} AuditsTellDeliveries(ops: seq<Op>, j: nat)
    requires j < |Run(ops).audits|
    ensures DeliveredIn(ops, Run(ops).audits[j])
  {
    if ops != [] {
      var n := |ops| - 1;
      var s, t := Run(ops[..n]), Run(ops);
      NewAuditTellsItsDelivery(s, ops[n]);
      if j < |s.audits| {
        AuditsTellDeliveries(ops[..n], j);
        assert t.audits[j] == t.audits[..|s.audits|][j] || t.audits == s.audits;
        var k :| 0 <= k < n && ops[..n][k].WebhookOp? && AuditsDelivery(s.audits[j], ops[..n][k].delivery);
        assert AuditsDelivery(t.audits[j], ops[k].delivery);
      } else {
        assert AuditsDelivery(t.audits[j], ops[n].delivery);
      }
    }
  }

  // ---------- The other ledgers ----------

  /** The total that the last applied webhook of an account reported. */
  function LastReported(ops: seq<Op>, a: Account): Option<int> {
    if ops == [] then None
    else
      var before, op := ops[..|ops| - 1], ops[|ops| - 1];
      if op.WebhookOp? && op.delivery.account == a && Applies(Run(before), op.delivery)
      then Some(op.delivery.total.value) else LastReported(before, a)
  }

  lemma {:induction false} StepXpLedger(s: Tables, op: Op, a: Account)
    ensures Lookup(Step(s, op).xpLedger, a, true)
         == if op.WebhookOp? && op.delivery.account == a && Applies(s, op.delivery)
            then Some(op.delivery.total.value) else Lookup(s.xpLedger, a, true)
  {
  }

  /** The XP ledger holds what the last applied webhook reported, and no row for an account without one. */
  lemma {:induction false} XpLedgerShowsLastReport(ops: seq<Op>, a: Account)
    ensures Lookup(Run(ops).xpLedger, a, true) == LastReported(ops, a)
  {
    if ops != [] {
      XpLedgerShowsLastReport(ops[..|ops| - 1], a);
      StepXpLedger(Run(ops[..|ops| - 1]), ops[|ops| - 1], a);
    }
  }

  /** The XP the oldest ledger was last told: what is left after a purchase, or what a webhook reported. */
  function LastTold(ops: seq<Op>, a: Account): int {
    if ops == [] then 0
    else
      var before, op := ops[..|ops| - 1], ops[|ops| - 1];
      if op.WebhookOp? && op.delivery.account == a && Applies(Run(before), op.delivery) then op.delivery.total.value
      else if op.BuyOp? && op.account == a && CanBuy(Run(before), a, op.quantity, op.price)
      then AvailableXp(Run(ops), a)
      else LastTold(before, a)
  }

  /** The token an account's last mint recorded. */
  function LastToken(ops: seq<Op>, a: Account): Option<string> {
    if ops == [] then None
    else
      var op := ops[|ops| - 1];
      if op.MintOp? && op.account == a then Some(op.tokenId) else LastToken(ops[..|ops| - 1], a)
  }

  function LegacyXp(s: Tables, a: Account): int {
    if a in s.legacy then s.legacy[a].totalXp else 0
  }

  function LegacyToken(s: Tables, a: Account): Option<string> {
    if a in s.legacy then s.legacy[a].tokenId else None
  }

  lemma {:induction false} BuyTellsLegacy(s: Tables, b: Account, quantity: int, price: int, a: Account)
    requires RowNonNegative(s, b)
    ensures var t := Buy(s, b, quantity, price);
      && LegacyToken(t, a) == LegacyToken(s, a)
      && LegacyXp(t, a) == if a == b && CanBuy(s, b, quantity, price) then AvailableXp(t, b) else LegacyXp(s, a)
  {
    if CanBuy(s, b, quantity, price) {
      PurchaseKeepsSolvent(s, b, quantity, price);
    }
  }

  lemma {:induction false} DeliveryTellsLegacy(s: Tables, d: Delivery, a: Account)
    ensures LegacyToken(Deliver(s, d), a) == LegacyToken(s, a)
    ensures LegacyXp(Deliver(s, d), a)
         == if d.account == a && Applies(s, d) then d.total.value else LegacyXp(s, a)
  {
  }

  lemma {:induction false} OpenTellsLegacyNothing(s: Tables, op: Op, a: Account)
    requires op.OpenOp?
    ensures LegacyToken(Step(s, op), a) == LegacyToken(s, a) && LegacyXp(Step(s, op), a) == LegacyXp(s, a)
  {
  }

  lemma {:induction false} StepLegacy(s: Tables, op: Op, a: Account)
    requires !op.BuyOp?
    ensures LegacyToken(Step(s, op), a) == if op.MintOp? && op.account == a then Some(op.tokenId) else LegacyToken(s, a)
    ensures LegacyXp(Step(s, op), a)
         == if op.WebhookOp? && op.delivery.account == a && Applies(s, op.delivery) then op.delivery.total.value
            else LegacyXp(s, a)
  {
    match op
    case WebhookOp(d) => DeliveryTellsLegacy(s, d, a);
    case OpenOp(_, _, _, _, _) => OpenTellsLegacyNothing(s, op, a);
    case _ =>
  }

  /** The oldest ledger holds the XP it was told last and the token that was minted last. */
  lemma {:induction false} OldestLedgerShowsLast(ops: seq<Op>, a: Account)
    ensures LegacyXp(Run(ops), a) == LastTold(ops, a)
    ensures LegacyToken(Run(ops), a) == LastToken(ops, a)
  {
    if ops != [] {
      var before, op := ops[..|ops| - 1], ops[|ops| - 1];
      OldestLedgerShowsLast(before, a);
      if op.BuyOp? {
        AlwaysSound(before, op.account);
        BuyTellsLegacy(Run(before), op.account, op.quantity, op.price, a);
      } else {
        StepLegacy(Run(before), op, a);
      }
    }
  }

  // ---------- Overspending ----------

  predicate SolventAt(s: Tables, a: Account) {
    Spent(s, a) <= XpTotal(s, a)
  }

  /** A purchase succeeds exactly if what was spent and its price are within the total, for which the default
      stands in when it is missing or 0. */
  lemma {:induction false} PurchaseSucceedsExactly(s: Tables, a: Account, quantity: int, price: int)
    requires RowNonNegative(s, a) && price >= 1
    ensures CanBuy(s, a, quantity, price)
      <==> quantity >= 1
           && Spent(s, a) + quantity * price <= (if a in s.economy && s.economy[a].zealyXpTotal > 0
                                                 then s.economy[a].zealyXpTotal else 10_000)
  {
    if quantity >= 1 {
      PurchaseAtLeast(quantity, price);
      assert CalculatePurchaseXpRequired(quantity, price) == quantity * price;
    }
  }

  /** An account has the same rows in every table. */
  predicate SameAccount(s: Tables, t: Tables, a: Account) {
    && Lookup(s.economy, a, true) == Lookup(t.economy, a, true)
    && Lookup(s.xpLedger, a, true) == Lookup(t.xpLedger, a, true)
    && Lookup(s.lootBalance, a, true) == Lookup(t.lootBalance, a, true)
    && Lookup(s.lootLedger, a, true) == Lookup(t.lootLedger, a, true)
    && Lookup(s.legacy, a, true) == Lookup(t.legacy, a, true)
  }

  /** A purchase takes exactly quantity times price off the available XP and leaves the account solvent. */
  lemma {:induction false} PurchaseCostsItsPrice(s: Tables, a: Account, quantity: int, price: int)
    requires RowNonNegative(s, a) && CanBuy(s, a, quantity, price) && price >= 1
    ensures var t := Buy(s, a, quantity, price);
      && AvailableXp(t, a) == AvailableXp(s, a) - quantity * price
      && Keys(t, a) == Keys(s, a) + quantity
      && SolventAt(t, a)
      && XpTotal(t, a) == EffectiveXpTotal(s, a)
      && a in t.legacy && t.legacy[a].totalXp == AvailableXp(t, a)
  {
    PurchaseAtLeast(quantity, price);
    assert CalculatePurchaseXpRequired(quantity, price) == quantity * price;
  }

  /** It touches no row of another account, no unlocked trait, no event and no audit row. */
  lemma {:induction false} PurchaseTouchesNoOther(s: Tables, a: Account, quantity: int, price: int, b: Account)
    requires b != a
    ensures var t := Buy(s, a, quantity, price);
      SameAccount(s, t, b) && t.unlocks == s.unlocks && t.events == s.events && t.audits == s.audits
  {
  }

  /** The XP that the balance endpoint computes from the economy row. */
  function XpSeen(row: EconomyRow): int {
    var total := if row.zealyXpTotal != 0 then row.zealyXpTotal else DEMO_DEFAULT_XP;
    CalculateXpAvailable(Max(0, total), Max(0, row.xpSpent))
  }

  /** In every reachable state the endpoint shows the XP a purchase would reckon with, and so does the
      row that an XP read leaves behind. */
  lemma {:induction false} ReadingShowsAvailableXp(ops: seq<Op>, a: Account)
    ensures var s := Run(ops);
      && (a in s.economy ==> XpSeen(s.economy[a]) == AvailableXp(s, a))
      && a in ReadXp(s, a).economy && XpSeen(ReadXp(s, a).economy[a]) == AvailableXp(s, a)
  {
    AlwaysSound(ops, a);
  }

  /** A reward that is applied must not report less XP than the account has spent. */
  predicate CoversSpending(s: Tables, op: Op, a: Account) {
    op.WebhookOp? && op.delivery.account == a && Applies(s, op.delivery) ==> op.delivery.total.value >= Spent(s, a)
  }

  lemma {:induction false} StepSolvency(s: Tables, op: Op, a: Account)
    requires RowNonNegative(s, a) && SolventAt(s, a)
    ensures SolventAt(Step(s, op), a) <==> CoversSpending(s, op, a)
  {
    if !op.ReadXpOp? && !op.MintOp? {
      StepEffect(s, op, a);
      if op.BuyOp? && op.account == a && CanBuy(s, a, op.quantity, op.price) {
        PurchaseKeepsSolvent(s, a, op.quantity, op.price);
      }
    }
  }

  lemma {:induction false} PurchaseKeepsSolvent(s: Tables, a: Account, quantity: int, price: int)
    requires RowNonNegative(s, a) && CanBuy(s, a, quantity, price)
    ensures Spent(s, a) + CalculatePurchaseXpRequired(quantity, price) <= EffectiveXpTotal(s, a)
  {
  }

  /** In every state of a run, an account has spent no more than its total. */
  predicate AlwaysSolvent(ops: seq<Op>, a: Account) {
    SolventAt(Run(ops), a) && (ops != [] ==> AlwaysSolvent(ops[..|ops| - 1], a))
  }

  /** Every applied reward of a run covers what was spent before it. */
  predicate AllCover(ops: seq<Op>, a: Account) {
    ops != [] ==> CoversSpending(Run(ops[..|ops| - 1]), ops[|ops| - 1], a) && AllCover(ops[..|ops| - 1], a)
  }

  /** An account is solvent throughout a run exactly when each applied reward covers what was spent before it. */
  lemma {:induction false} SolventExactlyWhenCovered(ops: seq<Op>, a: Account)
    ensures AlwaysSolvent(ops, a) <==> AllCover(ops, a)
  {
    if ops != [] {
      var before, op := ops[..|ops| - 1], ops[|ops| - 1];
      SolventExactlyWhenCovered(before, a);
      AlwaysSound(before, a);
      if AlwaysSolvent(before, a) {
        StepSolvency(Run(before), op, a);
      }
    }
  }

  /** A purchase followed by a webhook reporting no XP at all leaves more spent than the total. */
  lemma {:induction false} WebhookCanOverspend(a: Account)
    ensures
      var reset := Delivery("event", a, "quest", true, Some(0), RewardRule(true, 0, Zealy, None));
      var s := Run([BuyOp(a, 1, 100), WebhookOp(reset)]);
      Spent(s, a) == 100 && XpTotal(s, a) == 0 && !SolventAt(s, a)
  {
    var reset := Delivery("event", a, "quest", true, Some(0), RewardRule(true, 0, Zealy, None));
    var buy := BuyOp(a, 1, 100);
    var ops := [buy, WebhookOp(reset)];
    assert ops[..1] == [buy] && [buy][..0] == [];
    assert Run([]) == EMPTY && Run([buy]) == Step(EMPTY, buy);
    assert CanBuy(EMPTY, a, 1, 100);
    assert Run(ops) == Deliver(Run([buy]), reset);
  }

  /** An applied reward does not lower the total it finds, which may be the default. */
  predicate TotalKept(s: Tables, op: Op, a: Account) {
    op.WebhookOp? && op.delivery.account == a && Applies(s, op.delivery) ==> op.delivery.total.value >= XpTotal(s, a)
  }

  /** No applied reward of a run lowers the total it finds, the default included. */
  predicate TotalsNeverDecrease(ops: seq<Op>, a: Account) {
    ops != [] ==> TotalKept(Run(ops[..|ops| - 1]), ops[|ops| - 1], a) && TotalsNeverDecrease(ops[..|ops| - 1], a)
  }

  /** If no applied reward lowers the total it finds, no state of the run has spent more than the total. */
  lemma {:induction false} MonotoneTotalsPreventOverspending(ops: seq<Op>, a: Account)
    requires TotalsNeverDecrease(ops, a)
    ensures AlwaysSolvent(ops, a)
  {
    if ops != [] {
      var before, op := ops[..|ops| - 1], ops[|ops| - 1];
      MonotoneTotalsPreventOverspending(before, a);
      AlwaysSound(before, a);
      StepSolvency(Run(before), op, a);
    }
  }

  /** The totals that webhooks report for an account never decrease from one webhook to a later one. */
  predicate ReportsNeverDecrease(ops: seq<Op>, a: Account) {
    forall i, j :: 0 <= i < j < |ops| && Reports(ops[i], a) && Reports(ops[j], a) ==>
      ops[i].delivery.total.value <= ops[j].delivery.total.value
  }

  predicate Reports(op: Op, a: Account) {
    op.WebhookOp? && op.delivery.account == a && op.delivery.total.Some?
  }

  /** That the reported totals never decrease does not suffice: the first report may be below what was
      bought with the default. */
  lemma {:induction false} RisingReportsDoNotSuffice(a: Account)
    ensures
      var report := Delivery("event", a, "quest", true, Some(500), RewardRule(true, 0, Zealy, None));
      var ops := [BuyOp(a, 1, 9000), WebhookOp(report)];
      ReportsNeverDecrease(ops, a) && Spent(Run(ops), a) == 9000 && XpTotal(Run(ops), a) == 500
  {
    var report := Delivery("event", a, "quest", true, Some(500), RewardRule(true, 0, Zealy, None));
    var buy := BuyOp(a, 1, 9000);
    var ops := [buy, WebhookOp(report)];
    assert ops[..1] == [buy] && [buy][..0] == [];
    assert Run([]) == EMPTY && Run([buy]) == Step(EMPTY, buy);
    assert CanBuy(EMPTY, a, 1, 9000);
    assert Run(ops) == Deliver(Run([buy]), report);
  }

  // ---------- Opening lootboxes ----------

  function TableKeys(table: seq<Entry>): set<Text> {
    set e | e in table :: Key(e)
  }

  /**
   * A successful open unlocks at least one pair, none of them unlocked before,
   * all from the table, and takes exactly its cost; a refused one writes nothing.
   */
  lemma {:induction false} OpenUnlocksNewTraits(
      s: Tables, a: Account, cost: int, maxUnlocks: int, table: seq<Entry>, random: nat -> real)
    ensures var t := Open(s, a, cost, maxUnlocks, table, random);
      var added := UnlocksOf(a, Picks(s, a, maxUnlocks, table, random));
      if CanOpen(s, a, cost, maxUnlocks, table, random) then
        && added != {} && added !! s.unlocks && t.unlocks == s.unlocks + added
        && UnlockedKeys(s, a) < UnlockedKeys(t, a) <= UnlockedKeys(s, a) + TableKeys(table)
        && |Picks(s, a, maxUnlocks, table, random)| <= Max(1, maxUnlocks)
        && Keys(t, a) == Keys(s, a) - Max(1, cost) >= 0
      else t == s
  {
    var picks := Picks(s, a, maxUnlocks, table, random);
    var t := Open(s, a, cost, maxUnlocks, table, random);
    if CanOpen(s, a, cost, maxUnlocks, table, random) {
      SampledEntries(table, Max(1, maxUnlocks), UnlockedKeys(s, a), None, random);
      var added := UnlocksOf(a, picks);
      assert Unlock(a, TraitOf(picks[0])) in added;
      forall u | u in added
        ensures TraitKey(u.unlocked) !in UnlockedKeys(s, a) && TraitKey(u.unlocked) in TableKeys(table)
      {
        var e :| e in picks && u == Unlock(a, TraitOf(e));
        assert Key(e) == TraitKey(u.unlocked);
      }
      UnlockedKeysGrow(s, t, a, added);
      var u := Unlock(a, TraitOf(picks[0]));
      assert u in t.unlocks && TraitKey(u.unlocked) in UnlockedKeys(t, a);
    }
  }

  /**
   * An open is refused exactly if there are too few keys, or every one of its draws, up to the bound on
   * attempts, is of a trait already unlocked, be there others left in the table or not.
   */
  lemma {:induction false} OpenRefusedExactly(
      s: Tables, a: Account, cost: int, maxUnlocks: int, table: seq<Entry>, random: nat -> real)
    requires table != [] && Positive(table)
    ensures CanOpen(s, a, cost, maxUnlocks, table, random)
      <==> a in s.economy && Keys(s, a) >= Max(1, cost)
           && !AllExcluded(table, AttemptBound(table, Max(1, maxUnlocks), None), UnlockedKeys(s, a), random)
  {
    SampleIsEmptyExactly(table, Max(1, maxUnlocks), UnlockedKeys(s, a), None, random);
  }

  lemma {:induction false} UnlockedKeysGrow(s: Tables, t: Tables, a: Account, added: set<Unlock>)
    requires t.unlocks == s.unlocks + added && forall u :: u in added ==> u.account == a
    ensures UnlockedKeys(t, a) == UnlockedKeys(s, a) + set u | u in added :: TraitKey(u.unlocked)
  {
  }

  /** All of an account's opens draw from tables whose keys lie in `keys`. */
  predicate OpensWithin(ops: seq<Op>, a: Account, keys: set<Text>) {
    forall n :: 0 <= n < |ops| && ops[n].OpenOp? && ops[n].account == a ==> TableKeys(ops[n].table) <= keys
  }

  lemma {:induction false} SubsetSize<T>(a: set<T>, b: set<T>)
    requires a <= b
    ensures |a| <= |b|
    ensures a != b ==> |a| < |b|
  {
    var rest := b - a;
    assert b == a + rest;
    if a != b {
      assert rest != {};
    }
  }

  lemma {:induction false} OtherOpsUnlockNothing(s: Tables, op: Op, a: Account)
    requires !Opens(s, op, a)
    ensures UnlockedKeys(Step(s, op), a) == UnlockedKeys(s, a)
  {
    var t := Step(s, op);
    if op.OpenOp? && op.account != a {
      assert forall u :: u in t.unlocks && u.account == a <==> u in s.unlocks && u.account == a;
    } else {
      assert t.unlocks == s.unlocks;
    }
  }

  /** The number of an account's successful opens is at most the number of distinct keys its tables offer. */
  lemma {:induction false} OpensAreBounded(ops: seq<Op>, a: Account, keys: set<Text>)
    requires OpensWithin(ops, a, keys)
    ensures OpensBy(ops, a) <= |UnlockedKeys(Run(ops), a)| <= |keys|
    ensures UnlockedKeys(Run(ops), a) <= keys
  {
    if ops == [] {
      assert UnlockedKeys(EMPTY, a) == {};
    } else {
      var n := |ops| - 1;
      var s, op := Run(ops[..n]), ops[n];
      OpensAreBounded(ops[..n], a, keys);
      if Opens(s, op, a) {
        OpenUnlocksNewTraits(s, a, op.cost, op.maxUnlocks, op.table, op.random);
        SubsetSize(UnlockedKeys(s, a), UnlockedKeys(Run(ops), a));
      } else {
        OtherOpsUnlockNothing(s, op, a);
      }
    }
    SubsetSize(UnlockedKeys(Run(ops), a), keys);
  }
}
