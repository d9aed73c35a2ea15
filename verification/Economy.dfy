/**
 * The XP and loot-key economy of a brand's wallets: what each committed
 * transaction does to the tables (me.ts, zealy.ts), and what holds of every run.
 */
module Economy {
  import opened Wrappers
  import opened JsonText
  import opened LootboxSampling

  const DEMO_DEFAULT_XP: int := 10000

  datatype Account = Account(brand: string, wallet: string)

  /** `userBrandEconomyLedger`: the authoritative row. */
  datatype EconomyRow = EconomyRow(zealyXpTotal: int, xpSpent: int, lootKeys: int)

  /** `brandUserLedger`: the oldest mirror. */
  datatype LegacyRow = LegacyRow(tokenId: Option<string>, totalXp: int, lootKeys: int)

  /** `brandUserUnlockedTrait`. */
  datatype Trait = Trait(name: Text, value: Text)

  datatype Unlock = Unlock(account: Account, unlocked: Trait)

  datatype EventStatus = Received | Ignored | Processed

  /** `zealyRewardAudit`. */
  datatype Audit = Audit(account: Account, questId: string, xpDelta: int, lootKeyDelta: int, eventId: string)

  datatype Tables = Tables(
    economy: map<Account, EconomyRow>,
    xpLedger: map<Account, int>,
    lootBalance: map<Account, int>,
    lootLedger: map<Account, int>,
    legacy: map<Account, LegacyRow>,
    unlocks: set<Unlock>,
    events: map<string, EventStatus>,
    audits: seq<Audit>)

  const EMPTY: Tables := Tables(map[], map[], map[], map[], map[], {}, map[], [])

  // ---------- Amounts ----------

  function CalculatePurchaseXpRequired(quantity: int, xpPerLootKey: int): (xp: int)
    ensures quantity >= 1 ==> xp >= quantity
  {
    PurchaseAtLeast(Max(0, quantity), Max(1, xpPerLootKey));
    Max(0, quantity) * Max(1, xpPerLootKey)
  }

  lemma {:induction false} PurchaseAtLeast(q: int, p: int)
    requires q >= 0 && p >= 1
    ensures q * p >= q
  {
    assert q * p == q + q * (p - 1);
  }

  function CalculateXpAvailable(total: int, spent: int): (xp: int)
    ensures 0 <= spent <= total ==> spent + xp == total
    ensures total <= spent ==> xp == 0
    ensures xp >= 0
  {
    Max(0, Max(0, total) - Max(0, spent))
  }

  datatype XpMode = Zealy | Override | NoXp

  datatype RewardRule = RewardRule(enabled: bool, lootKeysDelta: int, xpMode: XpMode, xpOverride: Option<int>)

  datatype Credits = Credits(xp: int, lootKeys: int)

  function ComputeWebhookCredits(rule: RewardRule, zealyXp: int): (c: Credits)
    ensures c.xp >= 0 && c.lootKeys >= 0
    ensures !rule.enabled ==> c == Credits(0, 0)
    ensures rule.enabled && rule.lootKeysDelta >= 0 ==> c.lootKeys == rule.lootKeysDelta
    ensures rule.lootKeysDelta < 0 ==> c.lootKeys == 0
    ensures rule.enabled && rule.xpMode.Zealy? && zealyXp >= 0 ==> c.xp == zealyXp
    ensures rule.enabled && rule.xpMode.Override? && rule.xpOverride.Some? && rule.xpOverride.value >= 0 ==>
      c.xp == rule.xpOverride.value
    ensures rule.xpMode.Override? && rule.xpOverride.None? ==> c.xp == 0
    ensures rule.xpMode.NoXp? ==> c.xp == 0
  {
    if !rule.enabled then Credits(0, 0)
    else
      Credits(
        match rule.xpMode
        case Zealy => Max(0, zealyXp)
        case Override => Max(0, rule.xpOverride.GetOr(0))
        case NoXp => 0,
        Max(0, rule.lootKeysDelta))
  }

  /** A field of a webhook payload that may carry the XP total; a string is given by what `Number` makes of it. */
  datatype XpField = NumberField(n: JsNumber) | StringField(parsed: JsNumber) | OtherField

  /** The number a field stands for, if it is a finite one. */
  function NumberOf(f: XpField): JsNumber {
    match f
    case NumberField(n) => n
    case StringField(parsed) => parsed
    case OtherField => NotANumber
  }

  function FieldXp(f: XpField): (xp: Option<int>)
    ensures xp.Some? <==> NumberOf(f).Finite?
    ensures xp.Some? && NumberOf(f).value < 0.0 ==> xp.value == 0
    ensures xp.Some? && NumberOf(f).value >= 0.0 ==>
      xp.value as real <= NumberOf(f).value < xp.value as real + 1.0
  {
    match f
    case NumberField(Finite(x)) => Some(Max(0, x.Floor))
    case StringField(Finite(x)) => Some(Max(0, x.Floor))
    case _ => None
  }

  predicate AllUnusable(fields: seq<XpField>) {
    forall i :: 0 <= i < |fields| ==> FieldXp(fields[i]).None?
  }

  /** `resolveZealyXpFromPayload`: the first field that is a finite number. */
  method ResolveZealyXpFromPayload(fields: seq<XpField>) returns (xp: Option<int>)
    ensures xp.None? <==> AllUnusable(fields)
    ensures xp.Some? ==> xp.value >= 0
    ensures xp.Some? ==> exists i :: 0 <= i < |fields| && xp == FieldXp(fields[i]) && AllUnusable(fields[..i])
  {
    for i := 0 to |fields|
      invariant AllUnusable(fields[..i])
    {
      xp := FieldXp(fields[i]);
      if xp.Some? {
        return;
      }
    }
    xp := None;
  }

  // ---------- Committed transactions ----------

  function Keys(s: Tables, a: Account): int {
    if a in s.economy then s.economy[a].lootKeys else 0
  }

  function Spent(s: Tables, a: Account): int {
    if a in s.economy then s.economy[a].xpSpent else 0
  }

  function XpTotal(s: Tables, a: Account): int {
    if a in s.economy then s.economy[a].zealyXpTotal else 0
  }

  /** The total a purchase reckons with: the demo default stands in for a missing or zero total. */
  function EffectiveXpTotal(s: Tables, a: Account): int {
    if XpTotal(s, a) > 0 then XpTotal(s, a) else DEMO_DEFAULT_XP
  }

  function AvailableXp(s: Tables, a: Account): int {
    CalculateXpAvailable(EffectiveXpTotal(s, a), Spent(s, a))
  }

  function LegacyWith(legacy: map<Account, LegacyRow>, a: Account, totalXp: Option<int>, keys: int): LegacyRow {
    if a in legacy then legacy[a].(totalXp := totalXp.GetOr(legacy[a].totalXp), lootKeys := keys)
    else LegacyRow(None, totalXp.GetOr(0), keys)
  }

  /** The economy row and its three loot-key mirrors written together. */
  function WriteKeys(s: Tables, a: Account, row: EconomyRow, totalXp: Option<int>): Tables {
    s.(economy := s.economy[a := row],
       lootBalance := s.lootBalance[a := row.lootKeys],
       lootLedger := s.lootLedger[a := row.lootKeys],
       legacy := s.legacy[a := LegacyWith(s.legacy, a, totalXp, row.lootKeys)])
  }

  /** `getOrCreateEconomyLedger`, run by every read of the XP balance. */
  function ReadXp(s: Tables, a: Account): Tables {
    if XpTotal(s, a) > 0 then s
    else s.(economy := s.economy[a := EconomyRow(DEMO_DEFAULT_XP, Spent(s, a), Keys(s, a))])
  }

  predicate CanBuy(s: Tables, a: Account, quantity: int, price: int) {
    quantity >= 1 && AvailableXp(s, a) >= CalculatePurchaseXpRequired(quantity, price)
  }

  function Buy(s: Tables, a: Account, quantity: int, price: int): Tables {
    if !CanBuy(s, a, quantity, price) then s
    else
      var total := EffectiveXpTotal(s, a);
      var spent := Spent(s, a) + CalculatePurchaseXpRequired(quantity, price);
      WriteKeys(s, a, EconomyRow(total, spent, Keys(s, a) + quantity), Some(CalculateXpAvailable(total, spent)))
  }

  function TraitOf(e: Entry): Trait {
    Trait(e.traitName, e.traitValue)
  }

  function TraitKey(t: Trait): Text {
    t.name + SEPARATOR + t.value
  }

  /** The keys of what a wallet has unlocked. */
  function UnlockedKeys(s: Tables, a: Account): set<Text> {
    set u | u in s.unlocks && u.account == a :: TraitKey(u.unlocked)
  }

  /** What opening a lootbox would unlock. */
  function Picks(s: Tables, a: Account, maxUnlocks: int, table: seq<Entry>, random: nat -> real): seq<Entry> {
    Sample(table, Max(1, maxUnlocks), UnlockedKeys(s, a), None, random)
  }

  predicate CanOpen(s: Tables, a: Account, cost: int, maxUnlocks: int, table: seq<Entry>, random: nat -> real) {
    a in s.economy && Keys(s, a) >= Max(1, cost) && Picks(s, a, maxUnlocks, table, random) != []
  }

  function UnlocksOf(a: Account, picks: seq<Entry>): set<Unlock> {
    set e | e in picks :: Unlock(a, TraitOf(e))
  }

  /** Opening a lootbox: with too few keys, or nothing left to unlock, nothing is written. */
  function Open(s: Tables, a: Account, cost: int, maxUnlocks: int, table: seq<Entry>, random: nat -> real): Tables {
    if !CanOpen(s, a, cost, maxUnlocks, table, random) then s
    else
      var row := s.economy[a].(lootKeys := Keys(s, a) - Max(1, cost));
      WriteKeys(s, a, row, None).(unlocks := s.unlocks + UnlocksOf(a, Picks(s, a, maxUnlocks, table, random)))
  }

  /** What a webhook delivery carries once its payload is resolved. `total` is `None` when
      resolving it, or minting before it, throws. */
  datatype Delivery = Delivery(
    eventId: string,
    account: Account,
    questId: string,
    complete: bool,
    total: Option<nat>,
    rule: RewardRule)

  predicate Applies(s: Tables, d: Delivery) {
    d.eventId !in s.events && d.complete && d.total.Some?
  }

  /** The transaction `applyWebhookReward`. */
  function ApplyReward(s: Tables, d: Delivery): Tables
    requires d.total.Some?
  {
    var a, total := d.account, d.total.value;
    var keys := ComputeWebhookCredits(d.rule, total).lootKeys;
    WriteKeys(s, a, EconomyRow(total, Spent(s, a), Keys(s, a) + keys), Some(total)).(
      xpLedger := s.xpLedger[a := total],
      audits := s.audits + [Audit(a, d.questId, total - Max(0, XpTotal(s, a)), keys, d.eventId)],
      events := s.events[d.eventId := Processed])
  }

  lemma {:induction false} ReceivedIsOverwritten(s: Tables, d: Delivery)
    requires d.total.Some?
    ensures ApplyReward(s.(events := s.events[d.eventId := Received]), d) == ApplyReward(s, d)
  {
    assert s.events[d.eventId := Received][d.eventId := Processed] == s.events[d.eventId := Processed];
  }

  /** A webhook delivery: the event row is created first, and a second row for the same event is refused. */
  function Deliver(s: Tables, d: Delivery): Tables {
    if d.eventId in s.events then s
    else if !d.complete then s.(events := s.events[d.eventId := Ignored])
    else if d.total.None? then s.(events := s.events[d.eventId := Received])
    else ApplyReward(s, d)
  }

  /** The ledger row written when a mint is recorded (`persistMintedToken`). */
  function RecordMint(s: Tables, a: Account, tokenId: string): Tables {
    var row := if a in s.legacy then s.legacy[a] else LegacyRow(None, 0, 0);
    s.(legacy := s.legacy[a := row.(tokenId := Some(tokenId))])
  }

  // ---------- The database, written row by row ----------

  class Database {
    var economy: map<Account, EconomyRow>
    var xpLedger: map<Account, int>
    var lootBalance: map<Account, int>
    var lootLedger: map<Account, int>
    var legacy: map<Account, LegacyRow>
    var unlocks: set<Unlock>
    var events: map<string, EventStatus>
    var audits: seq<Audit>

    function State(): Tables
      reads this
    {
      Tables(economy, xpLedger, lootBalance, lootLedger, legacy, unlocks, events, audits)
    }

    constructor ()
      ensures State() == EMPTY
    {
      economy, xpLedger, lootBalance, lootLedger, legacy := map[], map[], map[], map[], map[];
      unlocks, events, audits := {}, map[], [];
    }

    method GetOrCreateEconomyLedger(a: Account) returns (row: EconomyRow)
      modifies this
      ensures State() == ReadXp(old(State()), a)
      ensures a in economy && row == economy[a]
    {
      if a in economy {
        if economy[a].zealyXpTotal > 0 {
          return economy[a];
        }
        economy := economy[a := economy[a].(zealyXpTotal := DEMO_DEFAULT_XP)];
      } else {
        economy := economy[a := EconomyRow(DEMO_DEFAULT_XP, 0, 0)];
      }
      row := economy[a];
    }

    method UpsertLegacy(a: Account, totalXp: Option<int>, keys: int)
      modifies this`legacy
      ensures legacy == old(legacy)[a := LegacyWith(old(legacy), a, totalXp, keys)]
    {
      if a in legacy {
        if totalXp.Some? {
          legacy := legacy[a := legacy[a].(totalXp := totalXp.value)];
        }
        legacy := legacy[a := legacy[a].(lootKeys := keys)];
      } else {
        legacy := legacy[a := LegacyRow(None, totalXp.GetOr(0), keys)];
      }
    }

    /** The three loot-key mirrors are brought up to the balance just written. */
    method MirrorKeys(a: Account, totalXp: Option<int>, keys: int)
      modifies this`lootBalance, this`lootLedger, this`legacy
      ensures lootBalance == old(lootBalance)[a := keys] && lootLedger == old(lootLedger)[a := keys]
      ensures legacy == old(legacy)[a := LegacyWith(old(legacy), a, totalXp, keys)]
    {
      lootBalance := lootBalance[a := keys];
      lootLedger := lootLedger[a := keys];
      UpsertLegacy(a, totalXp, keys);
    }

    /** Buying keys. The row the transaction creates first is rolled back when the XP does not suffice. */
    method BuyLootKeys(a: Account, quantity: int, price: int) returns (ok: bool)
      modifies this
      ensures ok <==> CanBuy(old(State()), a, quantity, price)
      ensures State() == Buy(old(State()), a, quantity, price)
    {
      if quantity < 1 {
        return false;
      }
      var requiredXp := CalculatePurchaseXpRequired(quantity, price);
      var before := economy;
      if a !in economy {
        economy := economy[a := EconomyRow(DEMO_DEFAULT_XP, 0, 0)];
      }
      var current := economy[a];
      var effective := if current.zealyXpTotal > 0 then current.zealyXpTotal else DEMO_DEFAULT_XP;
      if CalculateXpAvailable(effective, current.xpSpent) < requiredXp {
        economy := before;
        return false;
      }
      var next := EconomyRow(effective, current.xpSpent + requiredXp, current.lootKeys + quantity);
      economy := economy[a := next];
      var xpRemaining := CalculateXpAvailable(next.zealyXpTotal, next.xpSpent);
      MirrorKeys(a, Some(xpRemaining), next.lootKeys);
      assert old(economy)[a := EconomyRow(DEMO_DEFAULT_XP, 0, 0)][a := next] == old(economy)[a := next];
      ok := true;
    }

    method OpenLootbox(a: Account, cost: int, maxUnlocks: int, table: seq<Entry>, random: nat -> real)
      returns (picked: seq<Entry>)
      modifies this
      ensures picked == if CanOpen(old(State()), a, cost, maxUnlocks, table, random)
                        then Picks(old(State()), a, maxUnlocks, table, random) else []
      ensures State() == Open(old(State()), a, cost, maxUnlocks, table, random)
    {
      var lootKeysPerOpen := Max(1, cost);
      var balance := Max(0, if a in economy then economy[a].lootKeys else 0);
      if balance < lootKeysPerOpen {
        return [];
      }
      var existing := set u | u in unlocks && u.account == a :: TraitKey(u.unlocked);
      picked := SampleWeightedLootEntries(table, Max(1, maxUnlocks), existing, None, random);
      if picked == [] {
        return;
      }
      economy := economy[a := economy[a].(lootKeys := economy[a].lootKeys - lootKeysPerOpen)];
      var newBalance := Max(0, economy[a].lootKeys);
      MirrorKeys(a, None, newBalance);
      UnlockAll(a, picked);
    }

    method UnlockAll(a: Account, picked: seq<Entry>)
      modifies this`unlocks
      ensures unlocks == old(unlocks) + UnlocksOf(a, picked)
    {
      for i := 0 to |picked|
        invariant unlocks == old(unlocks) + UnlocksOf(a, picked[..i])
      {
        assert picked[..i + 1] == picked[..i] + [picked[i]];
        unlocks := unlocks + {Unlock(a, TraitOf(picked[i]))};
      }
      assert picked[..|picked|] == picked;
    }

    /** The transaction that credits a completed quest. */
    method ApplyWebhookReward(d: Delivery)
      requires d.total.Some?
      modifies this
      ensures State() == ApplyReward(old(State()), d)
    {
      var a, total := d.account, d.total.value;
      var keys := ComputeWebhookCredits(d.rule, total).lootKeys;
      var previous := Max(0, if a in economy then economy[a].zealyXpTotal else 0);
      if a in economy {
        economy := economy[a := economy[a].(zealyXpTotal := total, lootKeys := economy[a].lootKeys + keys)];
      } else {
        economy := economy[a := EconomyRow(total, 0, keys)];
      }
      var balance := economy[a].lootKeys;
      xpLedger := xpLedger[a := total];
      MirrorKeys(a, Some(total), balance);
      audits := audits + [Audit(a, d.questId, total - previous, keys, d.eventId)];
      events := events[d.eventId := Processed];
    }

    method HandleWebhook(d: Delivery)
      modifies this
      ensures State() == Deliver(old(State()), d)
    {
      if d.eventId in events {
        return;
      }
      events := events[d.eventId := Received];
      if !d.complete {
        events := events[d.eventId := Ignored];
        return;
      }
      if d.total.None? {
        return;
      }
      ApplyWebhookReward(d);
      ReceivedIsOverwritten(old(State()), d);
    }

    method PersistMintedToken(a: Account, tokenId: string)
      modifies this`legacy
      ensures State() == RecordMint(old(State()), a, tokenId)
    {
      if a in legacy {
        legacy := legacy[a := legacy[a].(tokenId := Some(tokenId))];
      } else {
        legacy := legacy[a := LegacyRow(Some(tokenId), 0, 0)];
      }
    }
  }
}
