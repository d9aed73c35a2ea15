/**
 * Sponsorship credits: what the event processor (zealyEventProcessor.ts), the
 * worker's mint and quest actions (zealyAutomationWorker.ts), the direct reward
 * execution (rewardExecutionService.ts) and the brand routes for joining and for
 * opening a lootbox (brands.ts) charge. Credits are counted in ten-thousandths,
 * the scale of their column. External calls may fail at any point; database
 * writes are reliable and each call runs alone.
 */
module Sponsorship {
  import opened Wrappers

  const MINT_COST: int := 10_000
  const REWARD_COST: int := 5_000
  const LOOTBOX_COST: int := 5_000

  datatype Member = Member(brand: string, wallet: string)

  datatype QuestKey = QuestKey(brand: string, questId: string, wallet: string)

  datatype QuestStatus = Done | Rewarded

  datatype EventStatus = Received | Processing | Completed | Failed

  datatype EventRow = EventRow(quest: QuestKey, status: EventStatus, runId: Option<string>)

  /** `members` are the wallets with an evolving membership. */
  datatype Tables = Tables(
    credits: map<string, int>,
    members: set<Member>,
    quests: map<QuestKey, QuestStatus>,
    events: map<string, EventRow>)

  const EMPTY: Tables := Tables(map[], {}, map[], map[])

  /** Which of the external steps of a call succeed: its configuration rows are found, the
      mint is confirmed, the traits are read, the workflow is accepted, the transaction is confirmed. */
  datatype World = World(configured: bool, minted: bool, traitsRead: bool, accepted: Option<string>, confirmed: bool)

  function Credits(s: Tables, brand: string): int {
    if brand in s.credits then s.credits[brand] else 0
  }

  /** What a call charged. */
  datatype Charge =
    | MintCharge(member: Member)
    | RewardCharge(brand: string, eventId: Option<string>)
    | LootboxCharge(brand: string)

  function Cost(c: Charge): int {
    match c
    case MintCharge(_) => MINT_COST
    case RewardCharge(_, _) => REWARD_COST
    case LootboxCharge(_) => LOOTBOX_COST
  }

  function ChargedTo(c: Charge): string {
    match c
    case MintCharge(m) => m.brand
    case RewardCharge(b, _) => b
    case LootboxCharge(b) => b
  }

  function Charged(s: Tables, brand: string, cost: int): Tables {
    s.(credits := s.credits[brand := Credits(s, brand) - cost])
  }

  function Joined(s: Tables, m: Member): Tables {
    s.(members := s.members + {m})
  }

  // ---------- The event processor ----------

  predicate StartsProcessing(s: Tables, id: string, w: World) {
    id in s.events && s.events[id].status != Completed && s.events[id].quest.brand in s.credits && w.configured
  }

  predicate AlreadyRewarded(s: Tables, q: QuestKey) {
    q in s.quests && s.quests[q] == Rewarded
  }

  function MemberOf(q: QuestKey): Member {
    Member(q.brand, q.wallet)
  }

  /** A call goes through the charging steps: the event is not done, nor is the quest rewarded. */
  predicate Advances(s: Tables, id: string, w: World) {
    StartsProcessing(s, id, w) && !AlreadyRewarded(s, s.events[id].quest)
  }

  predicate MintsFor(s: Tables, id: string, w: World) {
    && Advances(s, id, w)
    && MemberOf(s.events[id].quest) !in s.members
    && Credits(s, s.events[id].quest.brand) > 0 && w.minted
  }

  /** The credits after the mint step. */
  function CreditsAfterMint(s: Tables, id: string, w: World): int
    requires id in s.events
  {
    Credits(s, s.events[id].quest.brand) - if MintsFor(s, id, w) then MINT_COST else 0
  }

  /** The traits are read, with a token at hand and credits left for a submission still to be made. */
  predicate GetsToSubmit(s: Tables, id: string, w: World) {
    && Advances(s, id, w)
    && (MemberOf(s.events[id].quest) in s.members || MintsFor(s, id, w))
    && (s.events[id].runId.Some? || CreditsAfterMint(s, id, w) > 0)
    && w.traitsRead
  }

  predicate Submits(s: Tables, id: string, w: World) {
    GetsToSubmit(s, id, w) && s.events[id].runId.None? && w.accepted.Some?
  }

  predicate Finishes(s: Tables, id: string, w: World) {
    GetsToSubmit(s, id, w) && (s.events[id].runId.Some? || w.accepted.Some?) && w.confirmed
  }

  /** `processZealyEvent` */
  function ProcessEvent(s: Tables, id: string, w: World): Tables {
    if id !in s.events || s.events[id].status == Completed then s
    else
      var row := s.events[id];
      var q := row.quest;
      if !StartsProcessing(s, id, w) then s.(events := s.events[id := row.(status := Failed)])
      else if AlreadyRewarded(s, q) then s.(events := s.events[id := row.(status := Completed)])
      else
        var runId := if Submits(s, id, w) then w.accepted else row.runId;
        var charge := (if MintsFor(s, id, w) then MINT_COST else 0) + (if Submits(s, id, w) then REWARD_COST else 0);
        Tables(
          s.credits[q.brand := s.credits[q.brand] - charge],
          if MintsFor(s, id, w) then s.members + {MemberOf(q)} else s.members,
          s.quests[q := if Finishes(s, id, w) then Rewarded else Done],
          s.events[id := EventRow(q, if Finishes(s, id, w) then Completed else Failed, runId)])
  }

  function ProcessCharges(s: Tables, id: string, w: World): seq<Charge> {
    (if MintsFor(s, id, w) then [MintCharge(MemberOf(s.events[id].quest))] else [])
    + (if Submits(s, id, w) then [RewardCharge(s.events[id].quest.brand, Some(id))] else [])
  }

  // ---------- The worker's actions ----------

  predicate MintActionCharges(s: Tables, m: Member, w: World) {
    m !in s.members && m.brand in s.credits && w.configured && Credits(s, m.brand) >= MINT_COST && w.minted
  }

  /** `runMintAction` */
  function MintAction(s: Tables, m: Member, w: World): Tables {
    if MintActionCharges(s, m, w) then Charged(Joined(s, m), m.brand, MINT_COST) else s
  }

  predicate QuestActionCharges(s: Tables, brand: string, hasToken: bool, w: World) {
    && hasToken && brand in s.credits && w.configured && Credits(s, brand) >= REWARD_COST
    && w.traitsRead && w.accepted.Some? && w.confirmed
  }

  /** `runQuestRewardAction` */
  function QuestAction(s: Tables, brand: string, hasToken: bool, w: World): Tables {
    if QuestActionCharges(s, brand, hasToken, w) then Charged(s, brand, REWARD_COST) else s
  }

  // ---------- Direct execution ----------

  function RequiredCredits(s: Tables, m: Member): int {
    if m in s.members then REWARD_COST else MINT_COST + REWARD_COST
  }

  predicate ExecutionStarts(s: Tables, m: Member, w: World) {
    m.brand in s.credits && w.configured && Credits(s, m.brand) >= RequiredCredits(s, m)
  }

  predicate ExecutionMints(s: Tables, m: Member, w: World) {
    ExecutionStarts(s, m, w) && m !in s.members && w.minted
  }

  predicate ExecutionSubmits(s: Tables, m: Member, w: World) {
    ExecutionStarts(s, m, w) && (m in s.members || w.minted) && w.traitsRead && w.accepted.Some?
  }

  /** `executeQuestReward` */
  function ExecuteReward(s: Tables, m: Member, w: World): Tables {
    var minted := if ExecutionMints(s, m, w) then Charged(Joined(s, m), m.brand, MINT_COST) else s;
    if ExecutionSubmits(s, m, w) then Charged(minted, m.brand, REWARD_COST) else minted
  }

  function ExecutionCharges(s: Tables, m: Member, w: World): seq<Charge> {
    (if ExecutionMints(s, m, w) then [MintCharge(m)] else [])
    + (if ExecutionSubmits(s, m, w) then [RewardCharge(m.brand, None)] else [])
  }

  // ---------- The brand routes ----------

  /** The join route submits a mint and charges it, without looking at memberships. */
  predicate JoinCharges(s: Tables, m: Member, w: World) {
    m.brand in s.credits && w.configured && Credits(s, m.brand) > 0 && w.accepted.Some?
  }

  /**
   * The join route. The charge comes first; the membership created afterwards is refused
   * for a wallet that has one, and for a caller whose Privy id is no user's id (`linked`).
   */
  function Join(s: Tables, m: Member, linked: bool, w: World): Tables {
    if !JoinCharges(s, m, w) then s
    else if linked then Charged(Joined(s, m), m.brand, MINT_COST)
    else Charged(s, m.brand, MINT_COST)
  }

  /** The brand's lootbox route, for a member that names its own token or not. */
  predicate LootboxCharges(s: Tables, m: Member, ownToken: bool, w: World) {
    m.brand in s.credits && m in s.members && ownToken && Credits(s, m.brand) > 0 && w.accepted.Some?
  }

  function OpenBrandLootbox(s: Tables, m: Member, ownToken: bool, w: World): Tables {
    if LootboxCharges(s, m, ownToken, w) then Charged(s, m.brand, LOOTBOX_COST) else s
  }

  lemma {:induction false} Overwrite<K, V>(m: map<K, V>, k: K, a: V, b: V)
    ensures m[k := a][k := b] == m[k := b]
  {
  }

  // ---------- The services, write by write ----------

  class Services {
    var credits: map<string, int>
    var members: set<Member>
    var quests: map<QuestKey, QuestStatus>
    var events: map<string, EventRow>

    function State(): Tables
      reads this
    {
      Tables(credits, members, quests, events)
    }

    constructor ()
      ensures State() == EMPTY
    {
      credits, members, quests, events := map[], {}, map[], map[];
    }

    /** The wallet's token is looked up, or minted and charged. `left` are the credits the call
        reckons with afterwards. */
    method ResolveToken(q: QuestKey, w: World) returns (ok: bool, left: int)
      requires q.brand in credits
      modifies this`members, this`credits
      ensures ok <==> MemberOf(q) in old(members) || (old(credits)[q.brand] > 0 && w.minted)
      ensures left == old(credits)[q.brand] - if ok && MemberOf(q) !in old(members) then MINT_COST else 0
      ensures credits == old(credits)[q.brand := left]
      ensures members == if ok then old(members) + {MemberOf(q)} else old(members)
    {
      left := credits[q.brand];
      assert credits[q.brand := left] == credits;
      if MemberOf(q) in members {
        return true, left;
      }
      if left <= 0 || !w.minted {
        return false, left;
      }
      members := members + {MemberOf(q)};
      left := left - MINT_COST;
      credits := credits[q.brand := left];
      return true, left;
    }

    /** The reward is submitted and charged, unless an earlier call did that. */
    method SubmitReward(id: string, w: World, left: int) returns (ok: bool)
      requires id in events && events[id].quest.brand in credits && credits[events[id].quest.brand] == left
      modifies this`events, this`credits
      ensures var row := old(events)[id];
        var submits := row.runId.None? && left > 0 && w.traitsRead && w.accepted.Some?;
        && (ok <==> w.traitsRead && (row.runId.Some? || submits))
        && credits == old(credits)[row.quest.brand := left - if submits then REWARD_COST else 0]
        && events == old(events)[id := row.(runId := if submits then w.accepted else row.runId)]
    {
      var row := events[id];
      assert events[id := row] == events && credits[row.quest.brand := left] == credits;
      if row.runId.None? && left <= 0 {
        return false;
      }
      if !w.traitsRead {
        return false;
      }
      if row.runId.None? {
        if w.accepted.None? {
          return false;
        }
        events := events[id := row.(runId := w.accepted)];
        credits := credits[row.quest.brand := left - REWARD_COST];
      }
      return true;
    }

    /** The body of the processor's `try` block for a quest not yet rewarded; `false` is a thrown exception. */
    method Reward(id: string, w: World) returns (ok: bool)
      requires Advances(State(), id, w)
      modifies this
      ensures ok <==> Finishes(old(State()), id, w)
      ensures var s := old(State());
        var row := s.events[id];
        var charge := (if MintsFor(s, id, w) then MINT_COST else 0) + (if Submits(s, id, w) then REWARD_COST else 0);
        && credits == s.credits[row.quest.brand := s.credits[row.quest.brand] - charge]
        && members == (if MintsFor(s, id, w) then s.members + {MemberOf(row.quest)} else s.members)
        && quests == s.quests[row.quest := if ok then Rewarded else Done]
        && events == s.events[id := row.(runId := if Submits(s, id, w) then w.accepted else row.runId)]
    {
      var row := events[id];
      var q := row.quest;
      assert events[id := row] == events;
      quests := quests[q := Done];
      var left: int;
      ok, left := ResolveToken(q, w);
      if !ok {
        return;
      }
      assert members == (if MintsFor(old(State()), id, w) then old(members) + {MemberOf(q)} else old(members));
      ok := SubmitReward(id, w, left);
      ghost var spent := left - if Submits(old(State()), id, w) then REWARD_COST else 0;
      Overwrite(old(credits), q.brand, left, spent);
      if !ok {
        return;
      }
      ok := w.confirmed;
      if ok {
        quests := quests[q := Rewarded];
        Overwrite(old(quests), q, Done, Rewarded);
      }
    }

    method ProcessZealyEvent(id: string, w: World) returns (ok: bool)
      requires id in events
      modifies this
      ensures State() == ProcessEvent(old(State()), id, w)
      ensures ok <==> id in events && events[id].status == Completed
    {
      if events[id].status == Completed {
        return true;
      }
      var row := events[id];
      if row.quest.brand !in credits || !w.configured {
        events := events[id := row.(status := Failed)];
        return false;
      }
      if row.quest in quests && quests[row.quest] == Rewarded {
        events := events[id := row.(status := Completed)];
        return true;
      }
      ok := Reward(id, w);
      var runId := events[id].runId;
      Overwrite(old(events), id, events[id], EventRow(row.quest, if ok then Completed else Failed, runId));
      events := events[id := events[id].(status := if ok then Completed else Failed)];
    }

    method RunMintAction(m: Member, w: World) returns (ok: bool)
      modifies this
      ensures State() == MintAction(old(State()), m, w)
      ensures ok <==> m in old(members)
                      || (m.brand in old(credits) && w.configured && old(credits)[m.brand] >= MINT_COST && w.minted)
      ensures ok <==> m in members
    {
      if m in members {
        return true;
      }
      if m.brand !in credits || !w.configured {
        return false;
      }
      var brandCredits := credits[m.brand];
      if brandCredits < REWARD_COST {
        return false;
      }
      if brandCredits < MINT_COST {
        return false;
      }
      if !w.minted {
        return false;
      }
      members := members + {m};
      credits := credits[m.brand := brandCredits - MINT_COST];
      return true;
    }

    method RunQuestRewardAction(brand: string, hasToken: bool, w: World) returns (ok: bool)
      modifies this
      ensures State() == QuestAction(old(State()), brand, hasToken, w)
      ensures ok <==> hasToken && brand in old(credits) && w.configured && old(credits)[brand] >= REWARD_COST
                      && w.traitsRead && w.accepted.Some? && w.confirmed
      ensures ok <==> credits != old(credits)
    {
      if !hasToken || brand !in credits || !w.configured {
        return false;
      }
      var brandCredits := credits[brand];
      if brandCredits < REWARD_COST {
        return false;
      }
      if !w.traitsRead || w.accepted.None? || !w.confirmed {
        return false;
      }
      credits := credits[brand := brandCredits - REWARD_COST];
      return true;
    }

    method ExecuteQuestReward(m: Member, w: World) returns (ok: bool)
      modifies this
      ensures State() == ExecuteReward(old(State()), m, w)
      ensures ok <==> m.brand in old(credits) && w.configured
                      && old(credits)[m.brand] >= (if m in old(members) then REWARD_COST else MINT_COST + REWARD_COST)
                      && (m in old(members) || w.minted) && w.traitsRead && w.accepted.Some? && w.confirmed
    {
      if m.brand !in credits || !w.configured {
        return false;
      }
      var brandCredits := credits[m.brand];
      if brandCredits < (if m in members then REWARD_COST else MINT_COST + REWARD_COST) {
        return false;
      }
      if m !in members {
        if !w.minted {
          return false;
        }
        members := members + {m};
        brandCredits := brandCredits - MINT_COST;
        credits := credits[m.brand := brandCredits];
      }
      if !w.traitsRead || w.accepted.None? {
        return false;
      }
      brandCredits := brandCredits - REWARD_COST;
      credits := credits[m.brand := brandCredits];
      ok := w.confirmed;
    }

    /** `POST /brands/:brandId/join` */
    method JoinBrand(m: Member, linked: bool, w: World) returns (ok: bool)
      modifies this
      ensures State() == Join(old(State()), m, linked, w)
      ensures ok <==> m.brand in old(credits) && w.configured && old(credits)[m.brand] > 0 && w.accepted.Some?
                      && linked && m !in old(members)
      ensures credits != old(credits)
        <==> m.brand in old(credits) && w.configured && old(credits)[m.brand] > 0 && w.accepted.Some?
    {
      if m.brand !in credits || !w.configured {
        return false;
      }
      var brandCredits := credits[m.brand];
      if brandCredits <= 0 {
        return false;
      }
      if w.accepted.None? {
        return false;
      }
      credits := credits[m.brand := brandCredits - MINT_COST];
      if m in members || !linked {
        assert m in members ==> members + {m} == members;
        return false;
      }
      members := members + {m};
      return true;
    }

    /** `POST /brands/:brandId/lootbox/open` */
    method OpenLootboxOfBrand(m: Member, ownToken: bool, w: World) returns (ok: bool)
      modifies this
      ensures State() == OpenBrandLootbox(old(State()), m, ownToken, w)
      ensures ok <==> m.brand in old(credits) && m in old(members) && ownToken && old(credits)[m.brand] > 0
                      && w.accepted.Some?
      ensures ok <==> credits != old(credits)
    {
      if m.brand !in credits || m !in members || !ownToken {
        return false;
      }
      var brandCredits := credits[m.brand];
      if brandCredits <= 0 || w.accepted.None? {
        return false;
      }
      credits := credits[m.brand := brandCredits - LOOTBOX_COST];
      return true;
    }
  }
}
