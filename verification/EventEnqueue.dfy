/**
 * Turning webhook events into queued actions (zealyAutomationWorker.ts), with the
 * worker dying or a write failing at any point of a handling, and with the webhook
 * route (zealy.ts) closing the same event rows whenever it gets to.
 */
module EventEnqueue {
  import opened Wrappers

  datatype ActionType = MintBaseNft | ApplyQuestResult

  datatype Action = Action(brand: string, actionType: ActionType, eventId: string, wallet: string)

  datatype Status = Received | Processing | Ignored | Failed | Enqueued | Processed

  /** `processedAt` is only ever tested for being set. */
  datatype EventRow = EventRow(brand: string, status: Status, processed: bool)

  /** `events` is keyed by the unique `zealyEventId`. */
  datatype Tables = Tables(events: map<string, EventRow>, actions: seq<Action>)

  const EMPTY: Tables := Tables(map[], [])

  datatype Rule = NoRule | DisabledRule | EnabledRule

  /** What a handling reads: the payload, the identity, rule and ownership tables at that time. */
  datatype Reading = Reading(hasQuest: bool, isCompletion: bool, wallet: Option<string>, rule: Rule, ownsToken: bool)

  /** A handling may be cut short before its step number `at`: by the process dying, or by
      an exception, which the handler records on the event. */
  datatype Fault = NoFault | Crash(at: nat) | Throw(at: nat)

  /** The webhook route's closing write to the event's row, which asks for nothing, in a handling:
      between the worker's query and its first write, or after that. */
  datatype Closing = NoClosing | BeforeStart(credited: bool) | Meanwhile(credited: bool)

  const BEFORE_MINT: nat := 0
  const BEFORE_QUEST: nat := 1
  const BEFORE_DONE: nat := 2

  /** The action is one of a type for an event of a brand. */
  predicate IsFor(a: Action, brand: string, t: ActionType, eventId: string) {
    a.brand == brand && a.actionType == t && a.eventId == eventId
  }

  predicate Queued(actions: seq<Action>, brand: string, t: ActionType, eventId: string) {
    exists i :: 0 <= i < |actions| && IsFor(actions[i], brand, t, eventId)
  }

  /** `ensureActionQueued`: an action with the same event is looked for first, if the event id is not empty. */
  function EnsureQueued(actions: seq<Action>, a: Action): seq<Action> {
    if a.eventId != "" && Queued(actions, a.brand, a.actionType, a.eventId) then actions else actions + [a]
  }

  /** The row as the webhook route closes it: credited, or ignored. */
  function ClosedRow(row: EventRow, credited: bool): EventRow {
    row.(status := if credited then Processed else Ignored, processed := true)
  }

  /** Whether the event leads to actions at all. */
  predicate Actionable(r: Reading) {
    r.hasQuest && r.isCompletion && r.wallet.Some? && r.rule == EnabledRule
  }

  /** The status of an event that leads to no action. */
  function Refusal(r: Reading): Status
    requires !Actionable(r)
  {
    if !r.hasQuest then Failed
    else if !r.isCompletion then Ignored
    else if r.wallet.None? then Failed
    else if r.rule == NoRule then Failed
    else Ignored
  }

  function Reached(f: Fault): nat {
    match f
    case NoFault => BEFORE_DONE + 1
    case Crash(at) => at
    case Throw(at) => at
  }

  /** The actions after a handling that got as far as its fault allowed. */
  function ActionsAfter(actions: seq<Action>, brand: string, e: string, r: Reading, f: Fault): seq<Action>
    requires Actionable(r)
  {
    var w := r.wallet.value;
    var mint, quest := Action(brand, MintBaseNft, e, w), Action(brand, ApplyQuestResult, e, w);
    var minted := if Reached(f) > BEFORE_MINT && !r.ownsToken then EnsureQueued(actions, mint) else actions;
    if Reached(f) > BEFORE_QUEST then EnsureQueued(minted, quest) else minted
  }

  predicate Waiting(s: Tables, e: string) {
    e in s.events && (s.events[e].status == Received || s.events[e].status == Processing) && !s.events[e].processed
  }

  /** The status a complete handling ends with. */
  function Outcome(r: Reading): Status {
    if Actionable(r) then Enqueued else Refusal(r)
  }

  /**
   * The row a handling leaves. Complete, or with an exception recorded, it overwrites what the
   * webhook route wrote; after a crash the row is `processing`, unless the route has closed it since.
   * Only a crash without a closing write leaves an event that is not processed.
   */
  function RowAfter(row: EventRow, r: Reading, f: Fault, c: Closing): EventRow {
    if Reached(f) > BEFORE_DONE then row.(status := Outcome(r), processed := true)
    else if f.Throw? then row.(status := Failed, processed := true)
    else
      match c
      case NoClosing => row.(status := Processing)
      case BeforeStart(_) => row.(status := Processing, processed := true)
      case Meanwhile(credited) => ClosedRow(row, credited)
  }

  /** The row after the worker's first write and the route's closing write around it. */
  function Begun(row: EventRow, c: Closing): EventRow {
    match c
    case NoClosing => row.(status := Processing)
    case BeforeStart(credited) => ClosedRow(row, credited).(status := Processing)
    case Meanwhile(credited) => ClosedRow(row, credited)
  }

  function Concluded(row: EventRow, status: Status, f: Fault): EventRow {
    if Reached(f) > BEFORE_DONE then row.(status := status, processed := true)
    else if f.Throw? then row.(status := Failed, processed := true)
    else row
  }

  lemma {:induction false} RowAfterWrites(events: map<string, EventRow>, e: string, r: Reading, f: Fault, c: Closing)
    requires e in events
    ensures var begun := Begun(events[e], c);
      && Concluded(begun, Outcome(r), f) == RowAfter(events[e], r, f, c)
      && events[e := begun][e := RowAfter(events[e], r, f, c)] == events[e := RowAfter(events[e], r, f, c)]
  {
  }

  /** One handling of an event that the worker's query found waiting. */
  function Handle(s: Tables, e: string, r: Reading, f: Fault, c: Closing): Tables {
    if !Waiting(s, e) then s
    else
      var row := s.events[e];
      Tables(
        s.events[e := RowAfter(row, r, f, c)],
        if Actionable(r) then ActionsAfter(s.actions, row.brand, e, r, f) else s.actions)
  }

  /** The webhook route's closing write, at any other time. */
  function Close(s: Tables, e: string, credited: bool): Tables {
    if e in s.events then s.(events := s.events[e := ClosedRow(s.events[e], credited)]) else s
  }

  function Receive(s: Tables, e: string, brand: string): Tables {
    if e in s.events then s else s.(events := s.events[e := EventRow(brand, Received, false)])
  }

  class Worker {
    var events: map<string, EventRow>
    var actions: seq<Action>

    function State(): Tables
      reads this
    {
      Tables(events, actions)
    }

    constructor ()
      ensures State() == EMPTY
    {
      events, actions := map[], [];
    }

    method EnsureActionQueued(a: Action)
      modifies this`actions
      ensures actions == EnsureQueued(old(actions), a)
    {
      if a.eventId != "" {
        for i := 0 to |actions|
          invariant actions == old(actions)
          invariant !Queued(actions[..i], a.brand, a.actionType, a.eventId)
        {
          if IsFor(actions[i], a.brand, a.actionType, a.eventId) {
            return;
          }
        }
        assert actions[..|actions|] == actions;
      }
      actions := actions + [a];
    }

    method SetStatus(e: string, status: Status)
      requires e in events
      modifies this`events
      ensures events == old(events)[e := old(events)[e].(status := status)]
    {
      events := events[e := events[e].(status := status)];
    }

    method Finish(e: string, status: Status)
      requires e in events
      modifies this`events
      ensures events == old(events)[e := old(events)[e].(status := status, processed := true)]
    {
      events := events[e := events[e].(status := status, processed := true)];
    }

    /** The webhook route closes an event row, whatever is in it. */
    method CloseEvent(e: string, credited: bool)
      modifies this`events
      ensures State() == Close(old(State()), e, credited)
    {
      if e in events {
        Finish(e, if credited then Processed else Ignored);
      }
    }

    method EnqueueActions(brand: string, e: string, r: Reading, f: Fault)
      requires Actionable(r)
      modifies this`actions
      ensures actions == ActionsAfter(old(actions), brand, e, r, f)
    {
      var wallet := r.wallet.value;
      if Reached(f) > BEFORE_MINT && !r.ownsToken {
        EnsureActionQueued(Action(brand, MintBaseNft, e, wallet));
      }
      if Reached(f) > BEFORE_QUEST {
        EnsureActionQueued(Action(brand, ApplyQuestResult, e, wallet));
      }
    }

    /** The worker's first write, with the route's closing write before or after it. */
    method Begin(e: string, c: Closing)
      requires e in events && !events[e].processed
      modifies this`events
      ensures events == old(events)[e := Begun(old(events)[e], c)]
    {
      ghost var before := events;
      if c.BeforeStart? {
        CloseEvent(e, c.credited);
      }
      SetStatus(e, Processing);
      if c.Meanwhile? {
        CloseEvent(e, c.credited);
      }
      assert events == before[e := Begun(before[e], c)];
    }

    /** The last write, unless the handling is cut short by a crash. */
    method Conclude(e: string, status: Status, f: Fault)
      requires e in events
      modifies this`events
      ensures events == old(events)[e := Concluded(old(events)[e], status, f)]
    {
      if Reached(f) > BEFORE_DONE {
        Finish(e, status);
      } else if f.Throw? {
        Finish(e, Failed);
      } else {
        assert events[e := events[e]] == events;
      }
    }

    /** `handleZealyEvent`, called by the worker for an event its query found waiting. */
    method HandleZealyEvent(e: string, r: Reading, f: Fault, c: Closing)
      requires Waiting(State(), e)
      modifies this
      ensures State() == Handle(old(State()), e, r, f, c)
    {
      ghost var before := events;
      Begin(e, c);
      var status := Enqueued;
      if !r.hasQuest {
        status := Failed;
      } else if !r.isCompletion {
        status := Ignored;
      } else if r.wallet.None? {
        status := Failed;
      } else if r.rule != EnabledRule {
        status := if r.rule == NoRule then Failed else Ignored;
      } else {
        EnqueueActions(events[e].brand, e, r, f);
      }
      assert status == Outcome(r);
      Conclude(e, status, f);
      RowAfterWrites(before, e, r, f, c);
    }
  }

  // ---------- Any number of handlings ----------

  datatype Op =
    | ReceiveOp(eventId: string, brand: string)
    | CloseOp(eventId: string, credited: bool)
    | HandleOp(eventId: string, reading: Reading, fault: Fault, closing: Closing)

  function Step(s: Tables, op: Op): Tables {
    match op
    case ReceiveOp(e, brand) => Receive(s, e, brand)
    case CloseOp(e, credited) => Close(s, e, credited)
    case HandleOp(e, r, f, c) => Handle(s, e, r, f, c)
  }

  function Run(ops: seq<Op>): Tables {
    if ops == [] then EMPTY else Step(Run(ops[..|ops| - 1]), ops[|ops| - 1])
  }

  /** How many actions of a type are queued for an event of a brand. */
  function Count(actions: seq<Action>, brand: string, t: ActionType, e: string): nat {
    if actions == [] then 0
    else
      var last := actions[|actions| - 1];
      Count(actions[..|actions| - 1], brand, t, e) + if IsFor(last, brand, t, e) then 1 else 0
  }

  lemma {:induction false} CountedIsQueued(actions: seq<Action>, brand: string, t: ActionType, e: string)
    ensures Count(actions, brand, t, e) > 0 <==> Queued(actions, brand, t, e)
  {
    if actions != [] {
      var n := |actions| - 1;
      CountedIsQueued(actions[..n], brand, t, e);
      if Queued(actions[..n], brand, t, e) {
        var i :| 0 <= i < n && IsFor(actions[..n][i], brand, t, e);
        assert actions[i] == actions[..n][i];
      }
    }
  }

  lemma {:induction false} CountAfterEnsure(actions: seq<Action>, a: Action, brand: string, t: ActionType, e: string)
    ensures var same := IsFor(a, brand, t, e);
      Count(EnsureQueued(actions, a), brand, t, e)
      == if same && (e == "" || Count(actions, brand, t, e) == 0) then Count(actions, brand, t, e) + 1
         else Count(actions, brand, t, e)
  {
    CountedIsQueued(actions, a.brand, a.actionType, a.eventId);
    assert (actions + [a])[..|actions|] == actions;
  }

  /** Enqueueing again is harmless exactly when the action carries an event id. Event ids made by
      `buildZealyEventId` are never empty, so the check for one is a guard against other callers. */
  lemma {:induction false} EnqueueingIsIdempotentExactlyWithAnId(actions: seq<Action>, a: Action)
    ensures EnsureQueued(EnsureQueued(actions, a), a) == EnsureQueued(actions, a) <==> a.eventId != ""
  {
    CountAfterEnsure(actions, a, a.brand, a.actionType, a.eventId);
    CountedIsQueued(EnsureQueued(actions, a), a.brand, a.actionType, a.eventId);
    if a.eventId == "" {
      assert |EnsureQueued(EnsureQueued(actions, a), a)| == |actions| + 2;
    }
  }

  lemma {:induction false} EnsureKeepsAtMostOne(
      actions: seq<Action>, a: Action, brand: string, t: ActionType, e: string)
    requires e != "" && Count(actions, brand, t, e) <= 1
    ensures Count(actions, brand, t, e) <= Count(EnsureQueued(actions, a), brand, t, e) <= 1
  {
    CountAfterEnsure(actions, a, brand, t, e);
  }

  lemma {:induction false} ActionsKeepAtMostOne(
      actions: seq<Action>, b: string, id: string, r: Reading, f: Fault, brand: string, t: ActionType, e: string)
    requires e != "" && Actionable(r) && Count(actions, brand, t, e) <= 1
    ensures Count(actions, brand, t, e) <= Count(ActionsAfter(actions, b, id, r, f), brand, t, e) <= 1
  {
    var mint, quest := Action(b, MintBaseNft, id, r.wallet.value), Action(b, ApplyQuestResult, id, r.wallet.value);
    EnsureKeepsAtMostOne(actions, mint, brand, t, e);
    EnsureKeepsAtMostOne(actions, quest, brand, t, e);
    EnsureKeepsAtMostOne(EnsureQueued(actions, mint), quest, brand, t, e);
  }

  lemma {:induction false} HandlingKeepsAtMostOne(s: Tables, op: Op, brand: string, t: ActionType, e: string)
    requires e != "" && Count(s.actions, brand, t, e) <= 1
    ensures Count(s.actions, brand, t, e) <= Count(Step(s, op).actions, brand, t, e) <= 1
  {
    if op.HandleOp? && Waiting(s, op.eventId) && Actionable(op.reading) {
      ActionsKeepAtMostOne(s.actions, s.events[op.eventId].brand, op.eventId, op.reading, op.fault, brand, t, e);
    }
  }

  /** However often events are handled, and wherever each handling is cut short, an event has at most
      one mint and one quest action. */
  lemma {:induction false} AtMostOneActionPerEvent(ops: seq<Op>, brand: string, t: ActionType, e: string)
    requires e != ""
    ensures Count(Run(ops).actions, brand, t, e) <= 1
  {
    if ops != [] {
      AtMostOneActionPerEvent(ops[..|ops| - 1], brand, t, e);
      HandlingKeepsAtMostOne(Run(ops[..|ops| - 1]), ops[|ops| - 1], brand, t, e);
    }
  }

  /** Enqueueing both actions leaves exactly one of each that is asked for, if there was at most one before. */
  lemma {:induction false} BothAreQueuedOnce(actions: seq<Action>, brand: string, e: string, r: Reading)
    requires e != "" && Actionable(r)
    requires forall t :: Count(actions, brand, t, e) <= 1
    ensures var after := ActionsAfter(actions, brand, e, r, NoFault);
      Count(after, brand, ApplyQuestResult, e) == 1 && (!r.ownsToken ==> Count(after, brand, MintBaseNft, e) == 1)
  {
    var w := r.wallet.value;
    var mint, quest := Action(brand, MintBaseNft, e, w), Action(brand, ApplyQuestResult, e, w);
    var minted := if r.ownsToken then actions else EnsureQueued(actions, mint);
    CountAfterEnsure(actions, mint, brand, MintBaseNft, e);
    CountAfterEnsure(actions, mint, brand, ApplyQuestResult, e);
    CountAfterEnsure(minted, quest, brand, MintBaseNft, e);
    CountAfterEnsure(minted, quest, brand, ApplyQuestResult, e);
  }

  /**
   * The first handling that is not cut short leaves exactly one quest action, exactly
   * one mint action if the wallet owned no token, and an event that is never handled
   * again, however many handlings were cut short before and whenever the webhook route
   * closes the event.
   */
  lemma {:induction false} CompletedHandlingEnqueuesOnce(ops: seq<Op>, e: string, r: Reading, c: Closing)
    requires e != "" && Waiting(Run(ops), e) && Actionable(r)
    ensures var brand := Run(ops).events[e].brand;
      var t := Run(ops + [HandleOp(e, r, NoFault, c)]);
      && Count(t.actions, brand, ApplyQuestResult, e) == 1
      && (!r.ownsToken ==> Count(t.actions, brand, MintBaseNft, e) == 1)
      && t.events[e] == EventRow(brand, Enqueued, true)
      && !Waiting(t, e)
  {
    var s := Run(ops);
    var brand := s.events[e].brand;
    var longer := ops + [HandleOp(e, r, NoFault, c)];
    assert longer[..|longer| - 1] == ops;
    assert Run(longer) == Handle(s, e, r, NoFault, c);
    forall t
      ensures Count(s.actions, brand, t, e) <= 1
    {
      AtMostOneActionPerEvent(ops, brand, t, e);
    }
    BothAreQueuedOnce(s.actions, brand, e, r);
  }

  /** What the actions of one handling are for: its event, its brand and the wallet it read. */
  lemma {:induction false} HandlingQueuesItsOwn(s: Tables, e: string, r: Reading, f: Fault, c: Closing, i: nat)
    requires Waiting(s, e) && i < |Handle(s, e, r, f, c).actions|
    ensures s.actions <= Handle(s, e, r, f, c).actions
    ensures i >= |s.actions| ==>
      var a := Handle(s, e, r, f, c).actions[i];
      r.wallet == Some(a.wallet) && a.eventId == e && a.brand == s.events[e].brand
      && r.hasQuest && r.isCompletion && r.rule == EnabledRule
  {
  }

  /** If nothing is queued for an event, a complete handling queues the mint, unless a token is owned, and then
      the quest result. */
  lemma {:induction false} FreshHandlingQueues(s: Tables, e: string, r: Reading, c: Closing)
    requires Waiting(s, e) && Actionable(r)
    requires forall t :: !Queued(s.actions, s.events[e].brand, t, e)
    ensures var brand, w := s.events[e].brand, r.wallet.value;
      var mint, quest := Action(brand, MintBaseNft, e, w), Action(brand, ApplyQuestResult, e, w);
      Handle(s, e, r, NoFault, c).actions == s.actions + if r.ownsToken then [quest] else [mint, quest]
  {
    var brand, w := s.events[e].brand, r.wallet.value;
    var mint, quest := Action(brand, MintBaseNft, e, w), Action(brand, ApplyQuestResult, e, w);
    assert !Queued(s.actions + [mint], brand, ApplyQuestResult, e) by {
      CountedIsQueued(s.actions, brand, ApplyQuestResult, e);
      CountAfterEnsure(s.actions, mint, brand, ApplyQuestResult, e);
      CountedIsQueued(s.actions + [mint], brand, ApplyQuestResult, e);
    }
    assert s.actions + [mint] + [quest] == s.actions + [mint, quest];
  }

  /** Some handling of the action's event read its wallet. */
  predicate ReadIn(ops: seq<Op>, a: Action) {
    exists k :: 0 <= k < |ops| && ops[k].HandleOp? && ops[k].eventId == a.eventId
                && ops[k].reading.wallet == Some(a.wallet)
  }

  /** Every queued action is for the wallet that a handling of its event read. */
  lemma {:induction false} ActionsAreForWalletsRead(ops: seq<Op>, i: nat)
    requires i < |Run(ops).actions|
    ensures ReadIn(ops, Run(ops).actions[i])
  {
    if ops != [] {
      var n := |ops| - 1;
      var s, a := Run(ops[..n]), Run(ops).actions[i];
      if ops[n].HandleOp? && Waiting(s, ops[n].eventId) {
        HandlingQueuesItsOwn(s, ops[n].eventId, ops[n].reading, ops[n].fault, ops[n].closing, i);
      }
      if i < |s.actions| {
        ActionsAreForWalletsRead(ops[..n], i);
        assert s.actions[i] == a;
        var k :| 0 <= k < n && ops[..n][k].HandleOp? && ops[..n][k].eventId == a.eventId
                 && ops[..n][k].reading.wallet == Some(a.wallet);
        assert ops[k].eventId == a.eventId;
      } else {
        assert ops[n].eventId == a.eventId;
      }
    }
  }

  /** How a complete handling ends: enqueued if the event is a completion with a quest, a wallet and an enabled
      rule; ignored if it is no completion or its rule is disabled; failed if something is missing. */
  lemma {:induction false} HandlingEnds(s: Tables, e: string, r: Reading, c: Closing)
    requires Waiting(s, e)
    ensures var t := Handle(s, e, r, NoFault, c);
      && e in t.events && t.events[e].processed
      && (t.events[e].status == Enqueued
          <==> r.hasQuest && r.isCompletion && r.wallet.Some? && r.rule == EnabledRule)
      && (t.events[e].status == Ignored
          <==> r.hasQuest && (!r.isCompletion || (r.wallet.Some? && r.rule == DisabledRule)))
      && (t.events[e].status == Failed
          <==> !r.hasQuest || (r.isCompletion && (r.wallet.None? || r.rule == NoRule)))
      && (t.events[e].status != Enqueued ==> t.actions == s.actions)
  {
  }

  /** A crash leaves the event to be handled again, unless the route closes it; an exception does not. */
  lemma {:induction false} CutShortHandlingEnds(s: Tables, e: string, r: Reading, f: Fault, c: Closing)
    requires Waiting(s, e) && !f.NoFault? && f.at <= BEFORE_DONE
    ensures var t := Handle(s, e, r, f, c);
      && (Waiting(t, e) <==> f.Crash? && c.NoClosing?)
      && (f.Throw? ==> t.events[e].status == Failed)
      && (f.Crash? && c.Meanwhile? ==> t.events[e].status == if c.credited then Processed else Ignored)
  {
  }

  /** A processed event stays processed: it is never found waiting again, and nothing but the webhook
      route's closing write changes its row. */
  lemma {:induction false} DoneEventsStay(ops: seq<Op>, m: nat, e: string)
    requires m <= |ops| && e in Run(ops[..m]).events && Run(ops[..m]).events[e].processed
    ensures e in Run(ops).events && Run(ops).events[e].processed && !Waiting(Run(ops), e)
    ensures Run(ops).events[e] == LastClosing(ops[m..], e, Run(ops[..m]).events[e])
    decreases |ops|
  {
    if m < |ops| {
      var before, op := ops[..|ops| - 1], ops[|ops| - 1];
      assert before[..m] == ops[..m] && ops[m..][..|ops[m..]| - 1] == before[m..];
      DoneEventsStay(before, m, e);
    } else {
      assert ops[..m] == ops;
    }
  }

  /** The row as the last of the route's closing writes among some operations leaves it. */
  function LastClosing(ops: seq<Op>, e: string, row: EventRow): EventRow {
    if ops == [] then row
    else
      var before, op := LastClosing(ops[..|ops| - 1], e, row), ops[|ops| - 1];
      if op.CloseOp? && op.eventId == e then ClosedRow(before, op.credited) else before
  }

  /** In every reachable state an event waits exactly until it is processed. */
  lemma {:induction false} WaitingExactly(ops: seq<Op>, e: string)
    ensures e in Run(ops).events ==> (Waiting(Run(ops), e) <==> !Run(ops).events[e].processed)
  {
    if ops != [] {
      WaitingExactly(ops[..|ops| - 1], e);
    }
  }

  /** A row that the worker has closed does change: it enqueues an event's actions, the route then closes
      the event as processed, and the row no longer says that actions were enqueued. */
  lemma {:induction false} RouteOverwritesTheWorker(e: string, brand: string, r: Reading)
    requires e != "" && Actionable(r) && !r.ownsToken
    ensures
      var s := Run([ReceiveOp(e, brand), HandleOp(e, r, NoFault, NoClosing), CloseOp(e, true)]);
      && e in s.events && s.events[e] == EventRow(brand, Processed, true)
      && Count(s.actions, brand, MintBaseNft, e) == Count(s.actions, brand, ApplyQuestResult, e) == 1
  {
    var receive, handle, close := ReceiveOp(e, brand), HandleOp(e, r, NoFault, NoClosing), CloseOp(e, true);
    var ops := [receive, handle, close];
    assert ops[..2] == [receive] + [handle] && [receive][..0] == [];
    assert Run([]) == EMPTY && Run([receive]) == Step(EMPTY, receive);
    CompletedHandlingEnqueuesOnce([receive], e, r, NoClosing);
    assert Run(ops) == Close(Run([receive] + [handle]), e, true);
  }
}
