/** What holds of every sequence of charging calls, with any external failures. */
module SponsorshipRuns {
  import opened Wrappers
  import opened Sponsorship

  datatype Op =
    | FundOp(brand: string, amount: int)                     // a payment, of any amount, is added
    | RecordOp(member: Member)                               // a membership recorded without a charge
    | ReceiveOp(eventId: string, quest: QuestKey)            // a new event row
    | ProcessOp(eventId: string, world: World)
    | MintOp(member: Member, world: World)
    | QuestOp(brand: string, hasToken: bool, world: World)
    | ExecuteOp(member: Member, world: World)
    | JoinOp(member: Member, linked: bool, world: World)
    | LootboxOp(member: Member, ownToken: bool, world: World)

  function Step(s: Tables, op: Op): Tables {
    match op
    case FundOp(b, n) => Charged(s, b, -n)
    case RecordOp(m) => Joined(s, m)
    case ReceiveOp(e, q) => if e in s.events then s else s.(events := s.events[e := EventRow(q, Received, None)])
    case ProcessOp(e, w) => ProcessEvent(s, e, w)
    case MintOp(m, w) => MintAction(s, m, w)
    case QuestOp(b, hasToken, w) => QuestAction(s, b, hasToken, w)
    case ExecuteOp(m, w) => ExecuteReward(s, m, w)
    case JoinOp(m, linked, w) => Join(s, m, linked, w)
    case LootboxOp(m, ownToken, w) => OpenBrandLootbox(s, m, ownToken, w)
  }

  function Run(ops: seq<Op>): Tables {
    if ops == [] then EMPTY else Step(Run(ops[..|ops| - 1]), ops[|ops| - 1])
  }

  /** What one call charges, in order. */
  function Charges(s: Tables, op: Op): (cs: seq<Charge>)
    ensures |cs| <= 2
  {
    match op
    case ProcessOp(e, w) => ProcessCharges(s, e, w)
    case MintOp(m, w) => if MintActionCharges(s, m, w) then [MintCharge(m)] else []
    case QuestOp(b, hasToken, w) => if QuestActionCharges(s, b, hasToken, w) then [RewardCharge(b, None)] else []
    case ExecuteOp(m, w) => ExecutionCharges(s, m, w)
    case JoinOp(m, _, w) => if JoinCharges(s, m, w) then [MintCharge(m)] else []
    case LootboxOp(m, ownToken, w) => if LootboxCharges(s, m, ownToken, w) then [LootboxCharge(m.brand)] else []
    case _ => []
  }

  /** Every charge of a run, in order. */
  function Journal(ops: seq<Op>): seq<Charge> {
    if ops == [] then [] else Journal(ops[..|ops| - 1]) + Charges(Run(ops[..|ops| - 1]), ops[|ops| - 1])
  }

  function Funding(ops: seq<Op>, brand: string): int {
    if ops == [] then 0
    else
      var op := ops[|ops| - 1];
      Funding(ops[..|ops| - 1], brand) + if op.FundOp? && op.brand == brand then op.amount else 0
  }

  function TotalCost(cs: seq<Charge>, brand: string): nat {
    if cs == [] then 0
    else
      var c := cs[|cs| - 1];
      TotalCost(cs[..|cs| - 1], brand) + if ChargedTo(c) == brand then Cost(c) else 0
  }

  function Occurrences(cs: seq<Charge>, c: Charge): nat {
    if cs == [] then 0 else Occurrences(cs[..|cs| - 1], c) + if cs[|cs| - 1] == c then 1 else 0
  }

  lemma {:induction false} JournalSplits(a: seq<Charge>, b: seq<Charge>, brand: string, c: Charge)
    ensures TotalCost(a + b, brand) == TotalCost(a, brand) + TotalCost(b, brand)
    ensures Occurrences(a + b, c) == Occurrences(a, c) + Occurrences(b, c)
    decreases |b|
  {
    if b == [] {
      assert a + b == a;
    } else {
      JournalSplits(a, b[..|b| - 1], brand, c);
      assert (a + b)[..|a + b| - 1] == a + b[..|b| - 1];
    }
  }

  // ---------- Conservation ----------

  /** A charge that is made only under a condition. */
  function If(p: bool, c: Charge): seq<Charge> {
    if p then [c] else []
  }

  function CostIf(p: bool, c: Charge, brand: string): int {
    if p && ChargedTo(c) == brand then Cost(c) else 0
  }

  lemma {:induction false} CostOfOne(p: bool, c: Charge, brand: string)
    ensures TotalCost(If(p, c), brand) == CostIf(p, c, brand)
  {
    assert [c][..0] == [];
  }

  lemma {:induction false} CostOfTwo(p: bool, c: Charge, q: bool, d: Charge, brand: string)
    ensures TotalCost(If(p, c) + If(q, d), brand) == CostIf(p, c, brand) + CostIf(q, d, brand)
  {
    CostOfOne(p, c, brand);
    CostOfOne(q, d, brand);
    JournalSplits(If(p, c), If(q, d), brand, c);
  }

  lemma {:induction false} ProcessingLowersCredits(s: Tables, e: string, w: World, brand: string)
    requires e in s.events
    ensures var q := s.events[e].quest;
      Credits(ProcessEvent(s, e, w), brand)
      == Credits(s, brand) - CostIf(MintsFor(s, e, w), MintCharge(MemberOf(q)), brand)
         - CostIf(Submits(s, e, w), RewardCharge(q.brand, Some(e)), brand)
  {
  }

  lemma {:induction false} ProcessingCharges(s: Tables, e: string, w: World, brand: string)
    requires e in s.events
    ensures Credits(ProcessEvent(s, e, w), brand) == Credits(s, brand) - TotalCost(ProcessCharges(s, e, w), brand)
  {
    var q := s.events[e].quest;
    var mint, reward := MintCharge(MemberOf(q)), RewardCharge(q.brand, Some(e));
    assert ProcessCharges(s, e, w) == If(MintsFor(s, e, w), mint) + If(Submits(s, e, w), reward);
    CostOfTwo(MintsFor(s, e, w), mint, Submits(s, e, w), reward, brand);
    ProcessingLowersCredits(s, e, w, brand);
  }

  lemma {:induction false} ExecutingCharges(s: Tables, m: Member, w: World, brand: string)
    ensures Credits(ExecuteReward(s, m, w), brand) == Credits(s, brand) - TotalCost(ExecutionCharges(s, m, w), brand)
  {
    var mint, reward := MintCharge(m), RewardCharge(m.brand, None);
    CostOfTwo(ExecutionMints(s, m, w), mint, ExecutionSubmits(s, m, w), reward, brand);
    assert ExecutionCharges(s, m, w) == If(ExecutionMints(s, m, w), mint) + If(ExecutionSubmits(s, m, w), reward);
  }

  /** A call lowers a brand's credits by exactly the cost of what it charged, and no other brand's. */
  lemma {:induction false} StepCharges(s: Tables, op: Op, brand: string)
    ensures Credits(Step(s, op), brand)
         == Credits(s, brand) + (if op.FundOp? && op.brand == brand then op.amount else 0)
            - TotalCost(Charges(s, op), brand)
  {
    match op
    case ProcessOp(e, w) => if e in s.events { ProcessingCharges(s, e, w, brand); }
    case ExecuteOp(m, w) => ExecutingCharges(s, m, w, brand);
    case MintOp(m, w) => CostOfOne(MintActionCharges(s, m, w), MintCharge(m), brand);
    case QuestOp(b, hasToken, w) => CostOfOne(QuestActionCharges(s, b, hasToken, w), RewardCharge(b, None), brand);
    case JoinOp(m, _, w) => CostOfOne(JoinCharges(s, m, w), MintCharge(m), brand);
    case LootboxOp(m, own, w) => CostOfOne(LootboxCharges(s, m, own, w), LootboxCharge(m.brand), brand);
    case _ =>
  }

  /** Over every run a brand's credits are what it bought minus what the journal charged it. */
  lemma {:induction false} CreditsAreConserved(ops: seq<Op>, brand: string)
    ensures Credits(Run(ops), brand) == Funding(ops, brand) - TotalCost(Journal(ops), brand)
  {
    if ops != [] {
      var before, op := ops[..|ops| - 1], ops[|ops| - 1];
      CreditsAreConserved(before, brand);
      StepCharges(Run(before), op, brand);
      JournalSplits(Journal(before), Charges(Run(before), op), brand, MintCharge(Member("", "")));
    }
  }

  // ---------- At most once ----------

  lemma {:induction false} OccursInOne(d: Charge, c: Charge)
    ensures Occurrences([d], c) == if d == c then 1 else 0
  {
    assert [d][..0] == [];
  }

  lemma {:induction false} OccursInFew(cs: seq<Charge>, c: Charge)
    requires |cs| <= 2 && (|cs| == 2 ==> cs[0] != cs[1])
    ensures Occurrences(cs, c) == if c in cs then 1 else 0
  {
    if |cs| == 1 {
      assert cs == [cs[0]];
      OccursInOne(cs[0], c);
    } else if |cs| == 2 {
      assert cs[..1] == [cs[0]];
      OccursInOne(cs[0], c);
    }
  }

  lemma {:induction false} ChargesAreDistinct(s: Tables, op: Op)
    ensures |Charges(s, op)| == 2 ==> Charges(s, op)[0] != Charges(s, op)[1]
  {
  }

  lemma {:induction false} OccursInCharges(s: Tables, op: Op, c: Charge)
    ensures Occurrences(Charges(s, op), c) == if c in Charges(s, op) then 1 else 0
  {
    ChargesAreDistinct(s, op);
    OccursInFew(Charges(s, op), c);
  }

  /** A charged join that leaves no new membership behind: the wallet has one already, or it is refused. */
  predicate StrayJoin(s: Tables, op: Op, m: Member) {
    op.JoinOp? && op.member == m && JoinCharges(s, m, op.world) && (m in s.members || !op.linked)
  }

  /** A charged mint that makes the wallet a member. */
  predicate Joins(s: Tables, op: Op, m: Member) {
    MintCharge(m) in Charges(s, op) && m !in s.members && m in Step(s, op).members
  }

  /** A mint is charged either for a new membership or by a stray join, and memberships stay. */
  lemma {:induction false} MintIsForAMembership(s: Tables, op: Op, m: Member)
    ensures MintCharge(m) in Charges(s, op) <==> Joins(s, op, m) || StrayJoin(s, op, m)
    ensures !(Joins(s, op, m) && StrayJoin(s, op, m))
    ensures m in s.members ==> m in Step(s, op).members
  {
  }

  /** How many stray joins a wallet was charged for. */
  function StrayJoins(ops: seq<Op>, m: Member): nat {
    if ops == [] then 0
    else
      StrayJoins(ops[..|ops| - 1], m) + if StrayJoin(Run(ops[..|ops| - 1]), ops[|ops| - 1], m) then 1 else 0
  }

  /** The wallet's membership was created by a charged mint. */
  predicate BoughtMembership(ops: seq<Op>, m: Member) {
    ops != [] &&
    (BoughtMembership(ops[..|ops| - 1], m) || Joins(Run(ops[..|ops| - 1]), ops[|ops| - 1], m))
  }

  /** Over every run a wallet is charged one mint for a bought membership, and one for each stray join. */
  lemma {:induction false} MintChargesCounted(ops: seq<Op>, m: Member)
    ensures Occurrences(Journal(ops), MintCharge(m)) == StrayJoins(ops, m) + if BoughtMembership(ops, m) then 1 else 0
    ensures BoughtMembership(ops, m) ==> m in Run(ops).members
  {
    if ops != [] {
      var before, op := ops[..|ops| - 1], ops[|ops| - 1];
      MintChargesCounted(before, m);
      MintIsForAMembership(Run(before), op, m);
      OccursInCharges(Run(before), op, MintCharge(m));
      JournalSplits(Journal(before), Charges(Run(before), op), m.brand, MintCharge(m));
    }
  }

  /** No join of the wallet is a stray one. */
  predicate NoStrayJoin(ops: seq<Op>, m: Member) {
    ops != [] ==>
      NoStrayJoin(ops[..|ops| - 1], m) && !StrayJoin(Run(ops[..|ops| - 1]), ops[|ops| - 1], m)
  }

  lemma {:induction false} StrayJoinsAreCounted(ops: seq<Op>, m: Member)
    ensures StrayJoins(ops, m) == 0 <==> NoStrayJoin(ops, m)
  {
    if ops != [] {
      StrayJoinsAreCounted(ops[..|ops| - 1], m);
    }
  }

  /**
   * Every mint a wallet is charged gives it its membership, so that it is charged at
   * most once per brand, exactly when none of its joins is stray. With a stray join the
   * one charge that remains possible is that join itself.
   */
  lemma {:induction false} MintChargedAtMostOnce(ops: seq<Op>, m: Member)
    ensures Occurrences(Journal(ops), MintCharge(m)) <= 1
      <==> NoStrayJoin(ops, m) || (StrayJoins(ops, m) == 1 && !BoughtMembership(ops, m))
    ensures NoStrayJoin(ops, m) ==>
      Occurrences(Journal(ops), MintCharge(m)) <= if m in Run(ops).members then 1 else 0
  {
    MintChargesCounted(ops, m);
    StrayJoinsAreCounted(ops, m);
  }

  /** Without the join route a wallet's mint is charged at most once per brand, whichever other services run. */
  lemma {:induction false} OnlyJoinsChargeTwice(ops: seq<Op>, m: Member)
    requires forall n :: 0 <= n < |ops| ==> !(ops[n].JoinOp? && ops[n].member == m)
    ensures Occurrences(Journal(ops), MintCharge(m)) <= 1
  {
    JoinsAreStrayOnly(ops, m);
    MintChargedAtMostOnce(ops, m);
  }

  lemma {:induction false} JoinsAreStrayOnly(ops: seq<Op>, m: Member)
    requires forall n :: 0 <= n < |ops| ==> !(ops[n].JoinOp? && ops[n].member == m)
    ensures NoStrayJoin(ops, m)
  {
    if ops != [] {
      JoinsAreStrayOnly(ops[..|ops| - 1], m);
      assert !(ops[|ops| - 1].JoinOp? && ops[|ops| - 1].member == m);
    }
  }

  const SMOOTH: World := World(true, true, true, Some("run"), true)

  /** A wallet that joins twice is charged twice. */
  lemma {:induction false} JoiningTwiceIsChargedTwice(m: Member)
    ensures
      var ops := [FundOp(m.brand, 2 * MINT_COST), JoinOp(m, true, SMOOTH), JoinOp(m, true, SMOOTH)];
      Occurrences(Journal(ops), MintCharge(m)) == 2 && Credits(Run(ops), m.brand) == 0
  {
    var fund, join := FundOp(m.brand, 2 * MINT_COST), JoinOp(m, true, SMOOTH);
    var ops := [fund, join, join];
    assert ops[..2] == [fund, join] && ops[..2][..1] == [fund] && [fund][..0] == [];
    assert Journal([fund]) == [];
    assert Journal(ops[..2]) == [MintCharge(m)];
    assert Journal(ops) == [MintCharge(m), MintCharge(m)];
    assert [MintCharge(m), MintCharge(m)][..1] == [MintCharge(m)];
    OccursInOne(MintCharge(m), MintCharge(m));
  }

  /** The event's row carries the workflow run of an accepted submission. */
  predicate HasRun(s: Tables, e: string) {
    e in s.events && s.events[e].runId.Some?
  }

  lemma {:induction false} StepRuns(s: Tables, op: Op, e: string)
    ensures e in s.events ==> e in Step(s, op).events && Step(s, op).events[e].quest == s.events[e].quest
    ensures HasRun(s, e) ==> HasRun(Step(s, op), e)
  {
  }

  lemma {:induction false} ProcessingGivesTheRun(s: Tables, e: string, w: World)
    requires e in s.events
    ensures Submits(s, e, w) <==> !HasRun(s, e) && HasRun(ProcessEvent(s, e, w), e)
  {
  }

  /** An event's reward is charged in the call that gives its row a run, and in no other. */
  lemma {:induction false} ChargedWithTheRun(s: Tables, op: Op, e: string, b: string)
    ensures RewardCharge(b, Some(e)) in Charges(s, op)
      <==> !HasRun(s, e) && HasRun(Step(s, op), e) && s.events[e].quest.brand == b
  {
    match op
    case ProcessOp(f, w) =>
      if f in s.events {
        ProcessingGivesTheRun(s, f, w);
      }
    case _ =>
  }

  /** 1 once the event's row, which belongs to brand `b`, names a run. */
  function RunsOf(s: Tables, e: string, b: string): nat {
    if HasRun(s, e) && s.events[e].quest.brand == b then 1 else 0
  }

  lemma {:induction false} StepRunsOf(s: Tables, op: Op, e: string, b: string)
    ensures RunsOf(Step(s, op), e, b)
         == RunsOf(s, e, b) + Occurrences(Charges(s, op), RewardCharge(b, Some(e)))
  {
    StepRuns(s, op, e);
    ChargedWithTheRun(s, op, e, b);
    OccursInCharges(s, op, RewardCharge(b, Some(e)));
  }

  /** Each event has exactly one reward submission accepted and charged once its row names a run, and none before. */
  lemma {:induction false} RewardChargedOncePerEvent(ops: seq<Op>, e: string, b: string)
    ensures Occurrences(Journal(ops), RewardCharge(b, Some(e))) == RunsOf(Run(ops), e, b)
  {
    if ops != [] {
      var before, op := ops[..|ops| - 1], ops[|ops| - 1];
      RewardChargedOncePerEvent(before, e, b);
      StepRunsOf(Run(before), op, e, b);
      JournalSplits(Journal(before), Charges(Run(before), op), b, RewardCharge(b, Some(e)));
    }
  }

  /** Once a quest is rewarded it stays so, and processing any event for it again charges and submits nothing. */
  lemma {:induction false} RewardedQuestsAreNeverChargedAgain(ops: seq<Op>, n: nat, e: string, w: World)
    requires n <= |ops| && e in Run(ops[..n]).events && AlreadyRewarded(Run(ops[..n]), Run(ops[..n]).events[e].quest)
    ensures var s := Run(ops);
      && e in s.events && AlreadyRewarded(s, s.events[e].quest)
      && ProcessCharges(s, e, w) == []
      && ProcessEvent(s, e, w).credits == s.credits
      && ProcessEvent(s, e, w).events[e].runId == s.events[e].runId
    decreases |ops|
  {
    if n < |ops| {
      var before, op := ops[..|ops| - 1], ops[|ops| - 1];
      assert before[..n] == ops[..n];
      RewardedQuestsAreNeverChargedAgain(before, n, e, w);
      StepRuns(Run(before), op, e);
      RewardedStays(Run(before), op, Run(before).events[e].quest);
    } else {
      assert ops[..n] == ops;
    }
  }

  lemma {:induction false} RewardedStays(s: Tables, op: Op, q: QuestKey)
    requires AlreadyRewarded(s, q)
    ensures AlreadyRewarded(Step(s, op), q)
  {
  }

  // ---------- What becomes of an event ----------

  /** The event's quest is rewarded. */
  predicate EventRewarded(s: Tables, e: string) {
    e in s.events && AlreadyRewarded(s, s.events[e].quest)
  }

  predicate IsCompleted(s: Tables, e: string) {
    e in s.events && s.events[e].status == Completed
  }

  /** A call for an event that is not completed leaves it completed if its brand is there and configured and
      its quest is rewarded afterwards, and failed otherwise. */
  lemma {:induction false} OutcomeTellsTheReward(s: Tables, e: string, w: World)
    requires e in s.events && s.events[e].status != Completed
    ensures var t := ProcessEvent(s, e, w);
      && e in t.events && t.events[e].quest == s.events[e].quest
      && t.events[e].status
         == if s.events[e].quest.brand in s.credits && w.configured && EventRewarded(t, e) then Completed else Failed
  {
  }

  lemma {:induction false} CompletedStays(s: Tables, op: Op, e: string)
    requires IsCompleted(s, e)
    ensures IsCompleted(Step(s, op), e) && Step(s, op).events[e] == s.events[e]
  {
  }

  lemma {:induction false} StepCompletes(s: Tables, op: Op, e: string)
    requires IsCompleted(s, e) ==> EventRewarded(s, e)
    ensures IsCompleted(Step(s, op), e) ==> EventRewarded(Step(s, op), e)
  {
    if IsCompleted(s, e) {
      CompletedStays(s, op, e);
      RewardedStays(s, op, s.events[e].quest);
    } else if op.ProcessOp? && op.eventId == e && e in s.events {
      OutcomeTellsTheReward(s, e, op.world);
    }
  }

  /** In every reachable state an event is completed only if its quest is rewarded. */
  lemma {:induction false} CompletedEventsAreRewarded(ops: seq<Op>, e: string)
    requires IsCompleted(Run(ops), e)
    ensures EventRewarded(Run(ops), e)
  {
    if ops != [] {
      var before, op := Run(ops[..|ops| - 1]), ops[|ops| - 1];
      if IsCompleted(before, e) {
        CompletedEventsAreRewarded(ops[..|ops| - 1], e);
      }
      StepCompletes(before, op, e);
    }
  }

  /** A completed event's row never changes again. */
  lemma {:induction false} CompletedIsAbsorbing(ops: seq<Op>, n: nat, e: string)
    requires n <= |ops| && IsCompleted(Run(ops[..n]), e)
    ensures IsCompleted(Run(ops), e) && Run(ops).events[e] == Run(ops[..n]).events[e]
    decreases |ops|
  {
    if n < |ops| {
      var before, op := ops[..|ops| - 1], ops[|ops| - 1];
      assert before[..n] == ops[..n];
      CompletedIsAbsorbing(before, n, e);
      CompletedStays(Run(before), op, e);
    } else {
      assert ops[..n] == ops;
    }
  }

  /** Every external step succeeds. */
  predicate AllSucceed(w: World) {
    w.configured && w.minted && w.traitsRead && w.accepted.Some? && w.confirmed
  }

  /**
   * If every external step of a call succeeds, an event, new or failed before, ends completed and its quest
   * rewarded exactly if its brand is there and, unless the quest is rewarded already, credits are left for the
   * mint its wallet may need and then for the reward it may not have been charged yet.
   */
  lemma {:induction false} RetrySucceedsExactly(s: Tables, e: string, w: World)
    requires e in s.events && s.events[e].status != Completed && AllSucceed(w)
    ensures var q, t := s.events[e].quest, ProcessEvent(s, e, w);
      var joined := Member(q.brand, q.wallet) in s.members;
      var left := Credits(s, q.brand) - if joined then 0 else MINT_COST;
      IsCompleted(t, e) && EventRewarded(t, e)
      <==> q.brand in s.credits
           && (EventRewarded(s, e)
               || ((joined || Credits(s, q.brand) > 0) && (s.events[e].runId.Some? || left > 0)))
  {
  }

  /** A quest gets rewarded only by a confirmed call for one of its events, whose row then names a workflow run,
      and whose wallet is then a member. */
  lemma {:induction false} RewardNeedsARun(s: Tables, op: Op, q: QuestKey)
    requires !AlreadyRewarded(s, q) && AlreadyRewarded(Step(s, op), q)
    ensures op.ProcessOp? && op.eventId in s.events && s.events[op.eventId].quest == q
    ensures op.world.confirmed && op.world.configured && op.world.traitsRead
    ensures HasRun(Step(s, op), op.eventId) && Member(q.brand, q.wallet) in Step(s, op).members
  {
  }

  /** A row that gets a run gets the accepted one, and keeps it. */
  lemma {:induction false} RunIsTheAccepted(s: Tables, op: Op, e: string)
    requires HasRun(Step(s, op), e)
    ensures if HasRun(s, e) then Step(s, op).events[e].runId == s.events[e].runId
      else op.ProcessOp? && op.eventId == e && Step(s, op).events[e].runId == op.world.accepted
  {
  }

  // ---------- Overdrawing ----------

  /** The cases in which a charging call takes more than is left. */
  predicate Overdraws(s: Tables, op: Op, brand: string) {
    match op
    case ProcessOp(e, w) =>
      && e in s.events && s.events[e].quest.brand == brand
      && ((MintsFor(s, e, w) && Credits(s, brand) < MINT_COST)
          || (Submits(s, e, w) && CreditsAfterMint(s, e, w) < REWARD_COST))
    case JoinOp(m, _, w) => m.brand == brand && JoinCharges(s, m, w) && Credits(s, brand) < MINT_COST
    case LootboxOp(m, own, w) => m.brand == brand && LootboxCharges(s, m, own, w) && Credits(s, brand) < LOOTBOX_COST
    case _ => false
  }

  /**
   * A charging call overdraws a brand exactly when the event processor, a join or the brand's
   * lootbox route, which only ask for credits to be left, charge more than is left.
   */
  lemma {:induction false} OverdrawnExactly(s: Tables, op: Op, brand: string)
    requires Credits(s, brand) >= 0 && !op.FundOp?
    ensures Credits(Step(s, op), brand) < 0 <==> Overdraws(s, op, brand)
  {
  }

  /** A call never takes a brand a whole credit below zero. */
  lemma {:induction false} OverdrawnByLessThanAMint(s: Tables, op: Op, brand: string)
    requires !op.FundOp?
    ensures Credits(Step(s, op), brand) == Credits(s, brand)
      || (Credits(s, brand) > 0 && Credits(Step(s, op), brand) > -MINT_COST)
  {
  }

  /** What payments of a negative amount took away. */
  function Withdrawn(ops: seq<Op>, brand: string): nat {
    if ops == [] then 0
    else
      var op := ops[|ops| - 1];
      Withdrawn(ops[..|ops| - 1], brand) + if op.FundOp? && op.brand == brand && op.amount < 0 then -op.amount else 0
  }

  /** But for payments of a negative amount no run takes a brand a whole credit below zero. */
  lemma {:induction false} NeverAWholeCreditBelow(ops: seq<Op>, brand: string)
    ensures Credits(Run(ops), brand) > -MINT_COST - Withdrawn(ops, brand)
  {
    if ops != [] {
      var before, op := ops[..|ops| - 1], ops[|ops| - 1];
      NeverAWholeCreditBelow(before, brand);
      if !op.FundOp? {
        OverdrawnByLessThanAMint(Run(before), op, brand);
      }
    }
  }

  /** Payments come in non-negative multiples of half a credit. */
  predicate PaidInHalves(ops: seq<Op>) {
    forall i :: 0 <= i < |ops| && ops[i].FundOp? ==> ops[i].amount >= 0 && ops[i].amount % REWARD_COST == 0
  }

  lemma {:induction false} CostsAreHalves(cs: seq<Charge>, brand: string)
    ensures TotalCost(cs, brand) % REWARD_COST == 0
  {
    if cs != [] {
      CostsAreHalves(cs[..|cs| - 1], brand);
    }
  }

  lemma {:induction false} FundingIsHalves(ops: seq<Op>, brand: string)
    requires PaidInHalves(ops)
    ensures Funding(ops, brand) % REWARD_COST == 0 && Withdrawn(ops, brand) == 0
  {
    if ops != [] {
      FundingIsHalves(ops[..|ops| - 1], brand);
    }
  }

  lemma {:induction false} DifferenceOfHalves(a: int, b: int)
    requires a % REWARD_COST == 0 && b % REWARD_COST == 0 && a - b > -MINT_COST
    ensures a - b >= -REWARD_COST
  {
    var i, j := a / REWARD_COST, b / REWARD_COST;
    assert a - b == REWARD_COST * (i - j);
  }

  /** When credits are bought in halves no run takes a brand further than half a credit below zero. */
  lemma {:induction false} NeverBelowMinusHalf(ops: seq<Op>, brand: string)
    requires PaidInHalves(ops)
    ensures Credits(Run(ops), brand) >= -REWARD_COST
  {
    NeverAWholeCreditBelow(ops, brand);
    CreditsAreConserved(ops, brand);
    CostsAreHalves(Journal(ops), brand);
    FundingIsHalves(ops, brand);
    DifferenceOfHalves(Funding(ops, brand), TotalCost(Journal(ops), brand));
  }

  /** With half a credit left, processing one event for a new wallet overdraws the brand by half a credit. */
  lemma {:induction false} ProcessingOverdraws(q: QuestKey)
    ensures
      var ops := [FundOp(q.brand, REWARD_COST), ReceiveOp("event", q), ProcessOp("event", SMOOTH)];
      Credits(Run(ops), q.brand) == REWARD_COST - MINT_COST < 0
  {
    var fund, receive, process := FundOp(q.brand, REWARD_COST), ReceiveOp("event", q), ProcessOp("event", SMOOTH);
    var ops := [fund, receive, process];
    assert ops[..2] == [fund, receive] && ops[..2][..1] == [fund] && [fund][..0] == [];
    var s := Run(ops[..2]);
    assert Run([]) == EMPTY && Run([fund]) == Step(EMPTY, fund) && s == Step(Run([fund]), receive);
    assert s.credits == map[q.brand := REWARD_COST] && s.members == {} && s.quests == map[];
    assert s.events == map["event" := EventRow(q, Received, None)];
  }

  /** Only the worker's actions, direct executions and payments of positive amounts take place. */
  predicate OnlyCheckedCharges(ops: seq<Op>) {
    forall i :: 0 <= i < |ops| ==>
      !ops[i].ProcessOp? && !ops[i].JoinOp? && !ops[i].LootboxOp? && (ops[i].FundOp? ==> ops[i].amount >= 0)
  }

  /** The worker's actions and direct executions alone never overdraw. */
  lemma {:induction false} WorkersNeverOverdraw(ops: seq<Op>, brand: string)
    requires OnlyCheckedCharges(ops)
    ensures Credits(Run(ops), brand) >= 0
  {
    if ops != [] {
      var before, op := ops[..|ops| - 1], ops[|ops| - 1];
      WorkersNeverOverdraw(before, brand);
      if !op.FundOp? {
        OverdrawnExactly(Run(before), op, brand);
      }
    }
  }
}
