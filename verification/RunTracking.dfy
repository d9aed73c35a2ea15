/**
 * Tracking workflow runs: the background poller (krnlRunPoller.ts), the retry
 * transition (brands.ts) and the foreground polling loop (krnlService.ts). The
 * KRNL node's answers, chain receipts and clocks are arbitrary inputs.
 */
module RunTracking {
  import opened Wrappers
  import opened JsonText
  import Traits = TraitActivation

  const RUN_TIMEOUT_MS: int := 20 * 60 * 1000
  const WINDOW_MS: int := 24 * 60 * 60 * 1000

  /** Hashes are only ever written when they are not empty. */
  type Hash = s: string | s != "" witness "0"

  datatype Status = Queued | Running | Succeeded | Failed

  datatype Kind = OpenLootbox | SetActiveTraits | OtherKind

  /** A stored status payload: the node's, possibly with the receipt's status added. */
  datatype Payload = Payload(raw: Option<string>, txSucceeded: Option<bool>)

  datatype RunRow = RunRow(
    kind: Kind,
    owner: Traits.Owner,
    selections: seq<Traits.Selection>,
    hasReference: bool,
    createdAt: int,
    status: Status,
    executionHash: Option<Hash>,
    chainTxHash: Option<Hash>,
    txHash: Option<Hash>,
    statusJson: Option<Payload>,
    steps: Option<string>,
    error: Option<string>,
    completedAt: Option<int>)

  /** What the node reports; `None` as a status is "unknown". `rawTxHash`, `rawSteps` and
      `candidates` are what is found in the raw payload. */
  datatype Answer =
    | Unreachable
    | Answer(status: Option<Status>, txHash: Option<string>, raw: Option<string>, rawTxHash: Option<Hash>,
             rawSteps: Option<string>, message: string, candidates: seq<Traits.Selection>)

  /** The surroundings of one poll: clock, node, and the status of a hash's receipt, if it has one. */
  datatype World = World(now: int, answer: Answer, receipt: Hash -> Option<bool>, clock: nat -> int)

  function Truthy(h: Option<string>): Option<Hash> {
    if h.Some? && h.value != "" then Some(h.value) else None
  }

  function OrElse(a: Option<Hash>, b: Option<Hash>): Option<Hash> {
    if a.Some? then a else b
  }

  // ---------- One poll of one run ----------

  function MappedStatus(run: RunRow, a: Answer): Status
    requires a.Answer?
  {
    a.status.GetOr(run.status)
  }

  function NextExecutionHash(run: RunRow, a: Answer): Option<Hash>
    requires a.Answer?
  {
    OrElse(run.executionHash, OrElse(Truthy(a.txHash), a.rawTxHash))
  }

  /** The receipt looked up while the run has no chain hash yet. */
  function ReceiptSeen(run: RunRow, w: World): Option<bool>
    requires w.answer.Answer?
  {
    var next := NextExecutionHash(run, w.answer);
    if run.chainTxHash.None? && next.Some? then w.receipt(next.value) else None
  }

  function NextChainHash(run: RunRow, w: World): Option<Hash>
    requires w.answer.Answer?
  {
    if ReceiptSeen(run, w).Some? then NextExecutionHash(run, w.answer) else run.chainTxHash
  }

  function NextTxHash(run: RunRow, w: World): Option<Hash>
    requires w.answer.Answer?
  {
    if run.chainTxHash.None? && NextChainHash(run, w).Some? then NextChainHash(run, w)
    else if run.executionHash.None? then OrElse(run.txHash, NextExecutionHash(run, w.answer))
    else run.txHash
  }

  function NextStatusJson(run: RunRow, w: World): Option<Payload>
    requires w.answer.Answer?
  {
    var receipt := ReceiptSeen(run, w);
    if MappedStatus(run, w.answer) == Succeeded && receipt.Some? then Some(Payload(w.answer.raw, receipt))
    else if w.answer.raw.Some? then Some(Payload(w.answer.raw, None))
    else run.statusJson
  }

  function TimedOut(run: RunRow, now: int): RunRow {
    run.(status := Failed, error := Some("Workflow timed out"), completedAt := Some(now))
  }

  /** The run after one poll by the background poller. */
  function Poll(run: RunRow, w: World): RunRow {
    if !run.hasReference || w.answer.Unreachable? then run
    else if w.now - run.createdAt > RUN_TIMEOUT_MS then TimedOut(run, w.now)
    else
      var mapped := MappedStatus(run, w.answer);
      run.(status := mapped,
           statusJson := NextStatusJson(run, w),
           steps := if w.answer.rawSteps.Some? then w.answer.rawSteps else run.steps,
           executionHash := NextExecutionHash(run, w.answer),
           chainTxHash := NextChainHash(run, w),
           txHash := NextTxHash(run, w),
           error := if mapped == Failed then Some(w.answer.message) else run.error,
           completedAt := if mapped == Failed || mapped == Succeeded then Some(w.now) else run.completedAt)
  }

  /** The runs that the poller fetches. */
  predicate Selected(run: RunRow, start: int) {
    (run.status == Queued || run.status == Running) && run.createdAt >= start - WINDOW_MS
  }

  /** A poll turns the run into a succeeded one that changes trait rows. */
  predicate Fires(run: RunRow, w: World) {
    Poll(run, w).status == Succeeded && run.status != Succeeded && run.kind != OtherKind
  }

  function TraitEffect(rows: Traits.Rows, run: RunRow, w: World): Traits.Rows {
    if !Fires(run, w) || !w.answer.Answer? then rows
    else if run.kind == OpenLootbox then Traits.Unlocked(rows, run.owner, Traits.UniqueSelections(w.answer.candidates))
    else Traits.Activated(rows, run.owner, run.selections, w.clock)
  }

  // ---------- The background poller ----------

  /** One tick: when it starts, and the surroundings of each run's poll. */
  datatype TickWorld = TickWorld(start: int, worlds: nat -> World)

  function Tick(runs: seq<RunRow>, t: TickWorld): (next: seq<RunRow>)
    ensures |next| == |runs|
    ensures forall i :: 0 <= i < |runs| ==>
      next[i] == if Selected(runs[i], t.start) then Poll(runs[i], t.worlds(i)) else runs[i]
  {
    seq(|runs|, i requires 0 <= i < |runs| =>
      if Selected(runs[i], t.start) then Poll(runs[i], t.worlds(i)) else runs[i])
  }

  /** The trait rows once a tick has polled the runs from the newest down to position `n`. */
  function TickTraits(runs: seq<RunRow>, rows: Traits.Rows, t: TickWorld, n: nat): Traits.Rows
    requires n <= |runs|
    decreases |runs| - n
  {
    if n == |runs| then rows
    else
      var before := TickTraits(runs, rows, t, n + 1);
      if Selected(runs[n], t.start) then TraitEffect(before, runs[n], t.worlds(n)) else before
  }

  class Poller {
    /** In the order of their creation. */
    var runs: seq<RunRow>
    const table: Traits.TraitTable

    constructor (table: Traits.TraitTable)
      ensures runs == [] && this.table == table
    {
      runs := [];
      this.table := table;
    }

    /** One poll of a fetched run; the update is left out when nothing changed. */
    method PollRow(run: RunRow, w: World) returns (next: RunRow)
      requires run.status == Queued || run.status == Running
      ensures next == Poll(run, w)
    {
      if !run.hasReference || w.answer.Unreachable? {
        return run;
      }
      var a := w.answer;
      var mapped := a.status.GetOr(run.status);
      var nextExecution := OrElse(run.executionHash, OrElse(Truthy(a.txHash), a.rawTxHash));
      var nextChain := run.chainTxHash;
      var txStatus: Option<bool> := None;
      if nextChain.None? && nextExecution.Some? {
        txStatus := w.receipt(nextExecution.value);
        if txStatus.Some? {
          nextChain := nextExecution;
        }
      }
      if w.now - run.createdAt > RUN_TIMEOUT_MS {
        return run.(status := Failed, error := Some("Workflow timed out"), completedAt := Some(w.now));
      }
      var payload := if a.raw.Some? then Some(Payload(a.raw, None)) else None;
      var executionChanged := nextExecution.Some? && run.executionHash.None?;
      var chainChanged := nextChain.Some? && run.chainTxHash.None?;
      var errorChanged := mapped == Failed && run.error != Some(a.message);
      if run.status == mapped && !executionChanged && !chainChanged && !errorChanged
         && run.statusJson == payload && run.steps == a.rawSteps {
        return run;
      }
      var execution, chain, tx := run.executionHash, run.chainTxHash, run.txHash;
      var json := if a.raw.Some? then payload else run.statusJson;
      var steps := if a.rawSteps.Some? then a.rawSteps else run.steps;
      var error, completedAt := run.error, run.completedAt;
      if executionChanged {
        execution := nextExecution;
        if run.txHash.None? {
          tx := nextExecution;
        }
      }
      if chainChanged {
        chain := nextChain;
        tx := nextChain;
      }
      if mapped == Failed {
        completedAt, error := Some(w.now), Some(a.message);
      }
      if mapped == Succeeded {
        completedAt := Some(w.now);
        if txStatus.Some? {
          json := Some(Payload(a.raw, txStatus));
        }
      }
      return RunRow(run.kind, run.owner, run.selections, run.hasReference, run.createdAt,
                    mapped, execution, chain, tx, json, steps, error, completedAt);
    }

    /** The trait writes of a run that has just succeeded. */
    method WriteTraits(run: RunRow, next: RunRow, w: World)
      requires run.status != Succeeded && next == Poll(run, w)
      modifies table
      ensures table.rows == TraitEffect(old(table.rows), run, w)
    {
      if next.status == Succeeded && run.status != Succeeded && run.kind == OpenLootbox {
        var unlocked := Traits.CollectCandidates(w.answer.candidates);
        table.Unlock(run.owner, unlocked);
      } else if next.status == Succeeded && run.status != Succeeded && run.kind == SetActiveTraits {
        table.ActivateForRun(run.owner, run.selections, w.clock);
      }
    }

    /** `pollOnce`, newest run first: a succeeded run's trait writes and its row are one transaction. */
    method PollOnce(t: TickWorld)
      modifies this, table
      ensures runs == Tick(old(runs), t)
      ensures table.rows == TickTraits(old(runs), old(table.rows), t, 0)
    {
      ghost var runs0, rows0 := runs, table.rows;
      for i := |runs| downto 0
        invariant |runs| == |runs0|
        invariant forall j :: 0 <= j < |runs| ==> runs[j] == if j >= i then Tick(runs0, t)[j] else runs0[j]
        invariant table.rows == TickTraits(runs0, rows0, t, i)
      {
        var run, w := runs[i], t.worlds(i);
        if !Selected(run, t.start) {
          continue;
        }
        var next := PollRow(run, w);
        WriteTraits(run, next, w);
        runs := runs[i := next];
      }
    }
  }

  // ---------- The foreground loop ----------

  /** One round of the foreground loop: the node's answer and whether its hash has a receipt. */
  datatype Round =
    | Throws
    | Round(status: Option<Status>, txHash: Option<string>, raw: Option<string>, steps: Option<string>,
            message: string, confirmed: bool, now: int)

  datatype PollResult = Threw | Returned(ok: bool, state: Status, txHash: Option<Hash>, error: Option<string>)

  predicate InProgress(s: Status) {
    s == Queued || s == Running
  }

  function HashOf(round: Round): Option<Hash> {
    if round.Round? then Truthy(round.txHash) else None
  }

  /** The node reports success with a hash that has a receipt. */
  predicate Confirms(round: Round) {
    round.Round? && round.confirmed && round.status == Some(Succeeded) && HashOf(round).Some?
  }

  /** The round finds the run queued or running. */
  predicate Reports(round: Round) {
    round.Round? && round.status.Some? && InProgress(round.status.value)
  }

  /** The round ends the loop: it throws, finds the run failed, or finds it succeeded with a confirmed hash. */
  predicate Decisive(round: Round) {
    round.Throws? || round.status == Some(Failed) || Confirms(round)
  }

  /** The first decisive round below `limit`. */
  function FirstDecisive(rounds: nat -> Round, limit: nat): (k: Option<nat>)
    ensures k.None? ==> forall j: nat :: j < limit ==> !Decisive(rounds(j))
    ensures k.Some? ==> k.value < limit && Decisive(rounds(k.value))
    ensures k.Some? ==> forall j: nat :: j < k.value ==> !Decisive(rounds(j))
  {
    if limit == 0 then None
    else
      var k := FirstDecisive(rounds, limit - 1);
      if k.Some? then k else if Decisive(rounds(limit - 1)) then Some(limit - 1) else None
  }

  /** The last hash that one of the first `n` rounds reported, or the one known before. */
  function LastHash(rounds: nat -> Round, n: nat, known: Option<Hash>): Option<Hash> {
    if n == 0 then known else OrElse(HashOf(rounds(n - 1)), LastHash(rounds, n - 1, known))
  }

  /** The last hash among the first `n` rounds that was another than the one known then. */
  function LastNewHash(rounds: nat -> Round, n: nat, known: Option<Hash>): Option<Hash> {
    if n == 0 then None
    else
      var h := HashOf(rounds(n - 1));
      if h.Some? && h != LastHash(rounds, n - 1, known) then h else LastNewHash(rounds, n - 1, known)
  }

  /** The last status in progress that one of the first `n` rounds reported, or the one before. */
  function LastReport(rounds: nat -> Round, n: nat, before: Status): Status {
    if n == 0 then before
    else if Reports(rounds(n - 1)) then rounds(n - 1).status.value
    else LastReport(rounds, n - 1, before)
  }

  /** Status and hashes of the row are what the first `n` rounds reported. */
  predicate Follows(before: RunRow, now: RunRow, rounds: nat -> Round, n: nat) {
    && now.status == LastReport(rounds, n, before.status)
    && now.executionHash == LastHash(rounds, n, before.executionHash)
    && now.txHash == OrElse(before.txHash, LastNewHash(rounds, n, before.executionHash))
    && now.chainTxHash == before.chainTxHash
  }

  /** The payload of a round, if it has one, is stored in the row. */
  predicate Stores(row: RunRow, round: Round) {
    round.Round? ==>
      && (round.raw.Some? ==> row.statusJson == Some(Payload(round.raw, None)))
      && (round.steps.Some? ==> row.steps == round.steps)
  }

  /** The result is that of the first decisive round, and so is the row; or the loop has timed out. */
  predicate Decided(before: RunRow, now: RunRow, rounds: nat -> Round, limit: nat, r: PollResult) {
    match FirstDecisive(rounds, limit)
    case None =>
      && r == Returned(false, if now.status == Running then Running else Queued, None, None)
      && Follows(before, now, rounds, limit)
    case Some(k) =>
      var round := rounds(k);
      if round.Throws? then r == Threw && Follows(before, now, rounds, k)
      else if round.status == Some(Failed) then
        && r == Returned(false, Failed, None, Some(round.message))
        && now.status == Failed && now.error == Some(round.message) && now.completedAt == Some(round.now)
        && now.executionHash == LastHash(rounds, k, before.executionHash) && now.chainTxHash == before.chainTxHash
        && Stores(now, round)
      else
        && r == Returned(true, Succeeded, Truthy(round.txHash), None)
        && now.status == Succeeded && now.completedAt == Some(round.now)
        && now.executionHash == now.chainTxHash == now.txHash == Truthy(round.txHash)
        && Stores(now, round)
  }

  class ForegroundPoller {
    var run: RunRow

    constructor (run: RunRow)
      ensures this.run == run
    {
      this.run := run;
    }

    method StorePayload(round: Round)
      requires round.Round?
      modifies this
      ensures run == old(run).(
        statusJson := if round.raw.Some? then Some(Payload(round.raw, None)) else old(run.statusJson),
        steps := if round.steps.Some? then round.steps else old(run.steps))
    {
      if round.raw.Some? {
        run := run.(statusJson := Some(Payload(round.raw, None)));
      }
      if round.steps.Some? {
        run := run.(steps := round.steps);
      }
    }

    /**
     * `pollUntilTxHash` with `limit` rounds before its timeout. The first decisive round settles what
     * is returned and what the row becomes; without one the loop times out. The returned state is the
     * state its row was left in, except on a timeout over a row that was terminal at the start
     * and that no round reported as queued or running.
     */
    method PollUntilTxHash(limit: nat, rounds: nat -> Round) returns (r: PollResult)
      modifies this
      ensures !old(run.hasReference) ==> r.Threw? && run == old(run)
      ensures old(run.hasReference) ==> Decided(old(run), run, rounds, limit, r)
      ensures r.Returned? ==>
        (r.state != run.status
         <==> InProgress(r.state) && !InProgress(old(run.status))
              && forall k: nat :: k < limit ==> !Reports(rounds(k)))
      ensures r.Returned? && r.state != run.status ==> r.state == Queued && run.status == old(run.status)
    {
      if !run.hasReference {
        return Threw;
      }
      var initialTx := run.txHash;
      var stored := run.executionHash;
      var last := run.status;
      for k := 0 to limit
        invariant stored == run.executionHash && last == run.status
        invariant Follows(old(run), run, rounds, k)
        invariant forall j: nat :: j < k ==> !Decisive(rounds(j))
      {
        var round := rounds(k);
        if round.Throws? {
          FirstIs(rounds, limit, k);
          LastReportIs(rounds, k, old(run.status));
          return Threw;
        }
        if round.status == Some(Failed) {
          FirstIs(rounds, limit, k);
          StorePayload(round);
          run := run.(status := Failed, error := Some(round.message), completedAt := Some(round.now));
          return Returned(false, Failed, None, Some(round.message));
        }
        var hash := Truthy(round.txHash);
        if hash.Some? && hash != stored {
          StorePayload(round);
          run := run.(executionHash := hash, txHash := OrElse(initialTx, hash));
          stored := hash;
        }
        if round.status == Some(Succeeded) && hash.Some? && round.confirmed {
          FirstIs(rounds, limit, k);
          StorePayload(round);
          run := run.(status := Succeeded, chainTxHash := hash, txHash := hash, completedAt := Some(round.now));
          return Returned(true, Succeeded, hash, None);
        }
        if round.status.Some? && round.status.value != last && round.status.value != Succeeded {
          StorePayload(round);
          run := run.(status := if round.status.value == Queued then Queued else Running);
          last := round.status.value;
        }
      }
      LastReportIs(rounds, limit, old(run.status));
      return Returned(false, if last == Running then Running else Queued, None, None);
    }
  }

  lemma {:induction false} FirstIs(rounds: nat -> Round, limit: nat, k: nat)
    requires k < limit && Decisive(rounds(k)) && forall j: nat :: j < k ==> !Decisive(rounds(j))
    ensures FirstDecisive(rounds, limit) == Some(k)
  {
  }

  lemma {:induction false} LastReportIs(rounds: nat -> Round, n: nat, before: Status)
    ensures InProgress(LastReport(rounds, n, before))
      <==> InProgress(before) || exists k: nat :: k < n && Reports(rounds(k))
    ensures !InProgress(LastReport(rounds, n, before)) ==> LastReport(rounds, n, before) == before
  {
    if n > 0 {
      LastReportIs(rounds, n - 1, before);
    }
  }

  /** The call succeeds exactly if there is a decisive round and the first confirms a hash; it fails, or throws,
      exactly if the first decisive one does; and it times out exactly if there is none. */
  lemma {:induction false} FirstDecisiveRoundDecides(
      before: RunRow, now: RunRow, rounds: nat -> Round, limit: nat, r: PollResult)
    requires Decided(before, now, rounds, limit, r)
    ensures var k := FirstDecisive(rounds, limit);
      && (r.Returned? && r.ok <==> k.Some? && Confirms(rounds(k.value)))
      && (r.Returned? && r.ok ==> r.txHash == HashOf(rounds(k.value)) == now.txHash)
      && (r.Returned? && r.ok ==> now.executionHash == now.chainTxHash == now.txHash)
      && (r.Returned? && r.state == Failed
          <==> k.Some? && rounds(k.value).Round? && rounds(k.value).status == Some(Failed))
      && (r.Threw? <==> k.Some? && rounds(k.value).Throws?)
      && (r.Returned? && InProgress(r.state) <==> k.None?)
      && (k.None? ==> now.executionHash == LastHash(rounds, limit, before.executionHash))
  {
  }

  // ---------- Runs of the background poller ----------

  datatype Op =
    | SubmitOp(kind: Kind, owner: Traits.Owner, selections: seq<Traits.Selection>, hasReference: bool, now: int)
    | RefusedOp(kind: Kind, owner: Traits.Owner, selections: seq<Traits.Selection>, hasReference: bool, message: string,
                now: int)
    | TickOp(tick: TickWorld)
    | RetryOp(index: nat, permitted: bool)

  function FreshRun(kind: Kind, owner: Traits.Owner, selections: seq<Traits.Selection>, hasReference: bool, now: int)
    : RunRow
  {
    RunRow(kind, owner, selections, hasReference, now, Queued, None, None, None, None, None, None, None)
  }

  /** The row of a run whose submission throws. */
  function RefusedRun(
      kind: Kind, owner: Traits.Owner, selections: seq<Traits.Selection>, hasReference: bool, message: string, now: int)
    : RunRow
  {
    FreshRun(kind, owner, selections, hasReference, now).(
      status := Failed, error := Some(message), completedAt := Some(now))
  }

  /**
   * Resubmission of a failed run, once the handler's checks on its kind have passed:
   * its hashes and creation time stay, only `txHash` is cleared.
   */
  function Retried(run: RunRow): RunRow {
    if run.status == Failed && run.kind != SetActiveTraits
    then run.(status := Queued, txHash := None, error := None, hasReference := true)
    else run
  }

  function Step(runs: seq<RunRow>, op: Op): (next: seq<RunRow>)
    ensures |runs| <= |next| <= |runs| + 1
  {
    match op
    case SubmitOp(kind, owner, selections, hasReference, now) =>
      runs + [FreshRun(kind, owner, selections, hasReference, now)]
    case RefusedOp(kind, owner, selections, hasReference, message, now) =>
      runs + [RefusedRun(kind, owner, selections, hasReference, message, now)]
    case TickOp(t) => Tick(runs, t)
    case RetryOp(i, permitted) => if i < |runs| && permitted then runs[i := Retried(runs[i])] else runs
  }

  function Run(ops: seq<Op>): seq<RunRow> {
    if ops == [] then [] else Step(Run(ops[..|ops| - 1]), ops[|ops| - 1])
  }

  predicate FiresAt(runs: seq<RunRow>, op: Op, i: nat) {
    op.TickOp? && i < |runs| && Selected(runs[i], op.tick.start) && Fires(runs[i], op.tick.worlds(i))
  }

  /** How often the unlock or activation of a run took effect. */
  function Effects(ops: seq<Op>, i: nat): nat {
    if ops == [] then 0
    else Effects(ops[..|ops| - 1], i) + if FiresAt(Run(ops[..|ops| - 1]), ops[|ops| - 1], i) then 1 else 0
  }

  /** `succeeded` is absorbing for the background poller and for retries. */
  lemma {:induction false} SucceededStays(ops: seq<Op>, n: nat, i: nat)
    requires n <= |ops| && i < |Run(ops[..n])| && Run(ops[..n])[i].status == Succeeded
    ensures i < |Run(ops)| && Run(ops)[i] == Run(ops[..n])[i]
    decreases |ops|
  {
    if n < |ops| {
      assert ops[..|ops| - 1][..n] == ops[..n];
      SucceededStays(ops[..|ops| - 1], n, i);
    } else {
      assert ops[..n] == ops;
    }
  }

  predicate Retries(op: Op, i: nat) {
    op.RetryOp? && op.index == i
  }

  predicate Untouched(ops: seq<Op>, from: nat, i: nat) {
    forall k :: from <= k < |ops| ==> !Retries(ops[k], i)
  }

  /** `failed` is left only by a retry. */
  lemma {:induction false} FailedStaysUnlessRetried(ops: seq<Op>, n: nat, i: nat)
    requires n <= |ops| && i < |Run(ops[..n])| && Run(ops[..n])[i].status == Failed && Untouched(ops, n, i)
    ensures i < |Run(ops)| && Run(ops)[i] == Run(ops[..n])[i]
    decreases |ops|
  {
    if n < |ops| {
      assert ops[..|ops| - 1][..n] == ops[..n];
      FailedStaysUnlessRetried(ops[..|ops| - 1], n, i);
      assert !Retries(ops[|ops| - 1], i);
    } else {
      assert ops[..n] == ops;
    }
  }

  lemma {:induction false} NoEffectYet(ops: seq<Op>, i: nat)
    requires i >= |Run(ops)|
    ensures Effects(ops, i) == 0
  {
    if ops != [] {
      NoEffectYet(ops[..|ops| - 1], i);
    }
  }

  lemma {:induction false} StepFires(runs: seq<RunRow>, op: Op, i: nat)
    requires i < |runs|
    ensures var next := Step(runs, op)[i];
      && next.kind == runs[i].kind
      && (FiresAt(runs, op, i)
          <==> next.status == Succeeded && runs[i].status != Succeeded && runs[i].kind != OtherKind)
      && (runs[i].status == Succeeded ==> next.status == Succeeded)
  {
  }

  /** A run's effect on the trait rows takes place exactly once if it succeeded, and otherwise not at all. */
  lemma {:induction false} EffectsFireExactlyOnce(ops: seq<Op>, i: nat)
    requires i < |Run(ops)|
    ensures Effects(ops, i) == if Run(ops)[i].status == Succeeded && Run(ops)[i].kind != OtherKind then 1 else 0
  {
    var before, op := ops[..|ops| - 1], ops[|ops| - 1];
    var runs := Run(before);
    if i < |runs| {
      EffectsFireExactlyOnce(before, i);
      StepFires(runs, op, i);
    } else {
      NoEffectYet(before, i);
    }
  }

  // ---------- Several activations in one tick ----------

  /** A tick lets this run choose the active value of a key. */
  predicate Chooses(runs: seq<RunRow>, t: TickWorld, i: nat, owner: Traits.Owner, key: Text)
    requires i < |runs|
  {
    && Selected(runs[i], t.start) && Fires(runs[i], t.worlds(i)) && runs[i].kind == SetActiveTraits
    && runs[i].owner == owner && Traits.LastFor(runs[i].selections, key).Some?
  }

  /** Runs that do not choose the key leave its active values alone, whatever else they write. */
  lemma {:induction false} OthersLeaveTheKey(
      runs: seq<RunRow>, rows: Traits.Rows, t: TickWorld, n: nat, slot: Traits.Slot)
    requires n <= |runs|
    requires forall h :: 0 <= h < n ==> !Chooses(runs, t, h, slot.owner, slot.traitKey)
    ensures Traits.Active(TickTraits(runs, rows, t, 0), slot) <==> Traits.Active(TickTraits(runs, rows, t, n), slot)
  {
    if n > 0 {
      OthersLeaveTheKey(runs, rows, t, n - 1, slot);
      var run, w, before := runs[n - 1], t.worlds(n - 1), TickTraits(runs, rows, t, n);
      assert !Chooses(runs, t, n - 1, slot.owner, slot.traitKey);
      if Selected(run, t.start) && Fires(run, w) && run.kind == SetActiveTraits {
        Traits.ActivationIsLastWriteWins(before, run.owner, run.selections, w.clock, slot);
      }
    }
  }

  /**
   * Of all runs that choose the active value of a key in the same tick the oldest
   * decides, because the newest is polled first.
   */
  lemma {:induction false} OldestChoiceWins(
      runs: seq<RunRow>, rows: Traits.Rows, t: TickWorld, i: nat, slot: Traits.Slot)
    requires i < |runs| && Chooses(runs, t, i, slot.owner, slot.traitKey)
    requires forall h :: 0 <= h < i ==> !Chooses(runs, t, h, slot.owner, slot.traitKey)
    ensures var last := Traits.LastFor(runs[i].selections, slot.traitKey).value;
      Traits.Active(TickTraits(runs, rows, t, 0), slot)
      <==> slot in TickTraits(runs, rows, t, i + 1) && slot.traitValue == runs[i].selections[last].traitValue
  {
    OthersLeaveTheKey(runs, rows, t, i, slot);
    var before, w := TickTraits(runs, rows, t, i + 1), t.worlds(i);
    assert w.answer.Answer?;
    Traits.ActivationIsLastWriteWins(before, runs[i].owner, runs[i].selections, w.clock, slot);
  }

  // ---------- What gets unlocked ----------

  /** A tick makes this lootbox run of the slot's owner a succeeded one, and its payload lists the slot's trait. */
  predicate UnlocksAt(runs: seq<RunRow>, t: TickWorld, i: nat, slot: Traits.Slot)
    requires i < |runs|
  {
    && runs[i].kind == OpenLootbox && runs[i].owner == slot.owner
    && runs[i].status != Succeeded && Tick(runs, t)[i].status == Succeeded
    && t.worlds(i).answer.Answer?
    && Traits.Listed(t.worlds(i).answer.candidates, Traits.Selection(slot.traitKey, slot.traitValue))
  }

  lemma {:induction false} UnlockedSlots(
      rows: Traits.Rows, owner: Traits.Owner, cands: seq<Traits.Selection>, slot: Traits.Slot)
    ensures slot in Traits.Unlocked(rows, owner, Traits.UniqueSelections(cands))
      <==> slot in rows
           || (slot.owner == owner && Traits.Listed(cands, Traits.Selection(slot.traitKey, slot.traitValue)))
  {
    var sel := Traits.Selection(slot.traitKey, slot.traitValue);
    Traits.KeptExactly(cands, sel);
    var us := Traits.UniqueSelections(cands);
    assert slot in Traits.SlotsOf(owner, us) <==> slot.owner == owner && sel in us;
  }

  lemma {:induction false} PollUnlocks(runs: seq<RunRow>, rows: Traits.Rows, t: TickWorld, n: nat, slot: Traits.Slot)
    requires n < |runs|
    ensures slot in TickTraits(runs, rows, t, n)
      <==> slot in TickTraits(runs, rows, t, n + 1) || UnlocksAt(runs, t, n, slot)
  {
    var run, w, before := runs[n], t.worlds(n), TickTraits(runs, rows, t, n + 1);
    if Selected(run, t.start) && Fires(run, w) && w.answer.Answer? {
      if run.kind == OpenLootbox {
        UnlockedSlots(before, run.owner, w.answer.candidates, slot);
      } else {
        Traits.ActivationIsLastWriteWins(before, run.owner, run.selections, w.clock, slot);
      }
    }
  }

  /** A tick unlocks exactly the traits that its newly succeeded lootbox runs report for their owners. */
  lemma {:induction false} TickUnlocksExactly(
      runs: seq<RunRow>, rows: Traits.Rows, t: TickWorld, n: nat, slot: Traits.Slot)
    requires n <= |runs|
    ensures slot in TickTraits(runs, rows, t, n)
      <==> slot in rows || exists i :: n <= i < |runs| && UnlocksAt(runs, t, i, slot)
    decreases |runs| - n
  {
    if n < |runs| {
      TickUnlocksExactly(runs, rows, t, n + 1, slot);
      PollUnlocks(runs, rows, t, n, slot);
    }
  }

  /** Where no run of the tick chooses the key, an existing row keeps its state and a new one is inactive. */
  lemma {:induction false} UnlockingKeepsStates(
      runs: seq<RunRow>, rows: Traits.Rows, t: TickWorld, n: nat, slot: Traits.Slot)
    requires n <= |runs| && forall h :: n <= h < |runs| ==> !Chooses(runs, t, h, slot.owner, slot.traitKey)
    ensures var after := TickTraits(runs, rows, t, n);
      slot in after ==> after[slot] == if slot in rows then rows[slot] else None
    ensures slot in rows ==> slot in TickTraits(runs, rows, t, n)
    decreases |runs| - n
  {
    if n < |runs| {
      UnlockingKeepsStates(runs, rows, t, n + 1, slot);
      var run, w, before := runs[n], t.worlds(n), TickTraits(runs, rows, t, n + 1);
      assert !Chooses(runs, t, n, slot.owner, slot.traitKey);
      if Selected(run, t.start) && Fires(run, w) && run.kind == SetActiveTraits {
        Traits.ActivationIsLastWriteWins(before, run.owner, run.selections, w.clock, slot);
      }
    }
  }

  /** The trait rows after a sequence of operations. */
  function TraitsAfter(ops: seq<Op>): Traits.Rows {
    if ops == [] then map[]
    else
      var before, op := ops[..|ops| - 1], ops[|ops| - 1];
      if op.TickOp? then TickTraits(Run(before), TraitsAfter(before), op.tick, 0) else TraitsAfter(before)
  }

  /** Some lootbox run of the slot's owner became a succeeded one with a payload that lists the slot's trait. */
  predicate UnlockedOnce(ops: seq<Op>, slot: Traits.Slot) {
    ops != [] &&
    var before, op := ops[..|ops| - 1], ops[|ops| - 1];
    || UnlockedOnce(before, slot)
    || (op.TickOp? && exists i :: 0 <= i < |Run(before)| && UnlocksAt(Run(before), op.tick, i, slot))
  }

  /** Over every run of the poller a trait is unlocked exactly if a lootbox run succeeded that reported it. */
  lemma {:induction false} UnlockedExactly(ops: seq<Op>, slot: Traits.Slot)
    ensures slot in TraitsAfter(ops) <==> UnlockedOnce(ops, slot)
  {
    if ops != [] {
      var before, op := ops[..|ops| - 1], ops[|ops| - 1];
      UnlockedExactly(before, slot);
      if op.TickOp? {
        TickUnlocksExactly(Run(before), TraitsAfter(before), op.tick, 0, slot);
      }
    }
  }

  // ---------- What a finished run says ----------

  /** Exactly a failed run has an error, and a run that is over has a completion time. */
  predicate SaysHowItEnded(run: RunRow) {
    && (run.status == Failed <==> run.error.Some?)
    && (run.status == Failed || run.status == Succeeded ==> run.completedAt.Some?)
  }

  /** In every reachable state exactly the failed runs carry an error, and every finished one its time. */
  lemma {:induction false} RunsSayHowTheyEnded(ops: seq<Op>, i: nat)
    requires i < |Run(ops)|
    ensures SaysHowItEnded(Run(ops)[i])
  {
    var before, op := ops[..|ops| - 1], ops[|ops| - 1];
    if i < |Run(before)| {
      RunsSayHowTheyEnded(before, i);
    }
  }

  /** The answer that changes a run's status is what the row then says: status, message, time, steps and payload. */
  lemma {:induction false} RowSaysTheAnswer(runs: seq<RunRow>, t: TickWorld, i: nat)
    requires i < |runs| && Selected(runs[i], t.start) && runs[i].hasReference && t.worlds(i).answer.Answer?
    requires t.worlds(i).now - runs[i].createdAt <= RUN_TIMEOUT_MS
    ensures var next, w := Tick(runs, t)[i], t.worlds(i);
      && (w.answer.status.Some? ==> next.status == w.answer.status.value)
      && (next.status == Failed ==> next.error == Some(w.answer.message))
      && (next.status == Failed || next.status == Succeeded ==> next.completedAt == Some(w.now))
      && (w.answer.rawSteps.Some? ==> next.steps == w.answer.rawSteps)
      && (w.answer.raw.Some? ==> next.statusJson.Some? && next.statusJson.value.raw == w.answer.raw)
  {
  }

  /** An execution hash once known stays; else the reported one is taken, or the one in the payload. A chain hash
      is set exactly if it was missing and the execution hash has a receipt. */
  lemma {:induction false} HashesComeFromTheAnswer(runs: seq<RunRow>, t: TickWorld, i: nat)
    requires i < |runs| && Selected(runs[i], t.start) && runs[i].hasReference && t.worlds(i).answer.Answer?
    requires t.worlds(i).now - runs[i].createdAt <= RUN_TIMEOUT_MS
    ensures var run, next, a := runs[i], Tick(runs, t)[i], t.worlds(i).answer;
      && (run.executionHash.Some? ==> next.executionHash == run.executionHash)
      && (run.executionHash.None? && a.txHash.Some? && a.txHash.value != "" ==> next.executionHash == a.txHash)
      && (run.executionHash.None? && (a.txHash.None? || a.txHash.value == "") ==> next.executionHash == a.rawTxHash)
      && (run.chainTxHash.None? ==>
          (next.chainTxHash.Some?
           <==> next.executionHash.Some? && t.worlds(i).receipt(next.executionHash.value).Some?))
  {
  }

  // ---------- Hashes ----------

  /** The transaction hash is the execution hash, and so is the chain hash once it is set. */
  predicate HashesAgree(run: RunRow) {
    run.txHash == run.executionHash && (run.chainTxHash.Some? ==> run.chainTxHash == run.executionHash)
  }

  lemma {:induction false} PollKeepsHashes(run: RunRow, w: World)
    ensures HashesAgree(run) ==> HashesAgree(Poll(run, w))
    ensures run.executionHash.Some? ==> Poll(run, w).executionHash == run.executionHash
    ensures run.chainTxHash.Some? ==> Poll(run, w).chainTxHash == run.chainTxHash
  {
  }

  /** A run that is never retried has agreeing hashes in every reachable state. */
  lemma {:induction false} HashesAgreeWithoutRetry(ops: seq<Op>, i: nat)
    requires i < |Run(ops)| && Untouched(ops, 0, i)
    ensures HashesAgree(Run(ops)[i])
  {
    var before, op := ops[..|ops| - 1], ops[|ops| - 1];
    var runs := Run(before);
    assert !Retries(op, i);
    if i < |runs| {
      HashesAgreeWithoutRetry(before, i);
      if op.TickOp? {
        PollKeepsHashes(runs[i], op.tick.worlds(i));
      }
    }
  }

  /** The execution and chain hashes are written at most once, retries included. */
  lemma {:induction false} HashesAreWriteOnce(ops: seq<Op>, n: nat, i: nat)
    requires n <= |ops| && i < |Run(ops[..n])|
    ensures i < |Run(ops)|
    ensures Run(ops[..n])[i].executionHash.Some? ==> Run(ops)[i].executionHash == Run(ops[..n])[i].executionHash
    ensures Run(ops[..n])[i].chainTxHash.Some? ==> Run(ops)[i].chainTxHash == Run(ops[..n])[i].chainTxHash
    decreases |ops|
  {
    if n < |ops| {
      var before, op := ops[..|ops| - 1], ops[|ops| - 1];
      assert before[..n] == ops[..n];
      HashesAreWriteOnce(before, n, i);
      if op.TickOp? {
        PollKeepsHashes(Run(before)[i], op.tick.worlds(i));
      }
    } else {
      assert ops[..n] == ops;
    }
  }

  /** Without retries the transaction hash is write-once too. */
  lemma {:induction false} TxHashIsWriteOnceWithoutRetry(ops: seq<Op>, n: nat, i: nat)
    requires n <= |ops| && i < |Run(ops[..n])| && Untouched(ops, 0, i) && Run(ops[..n])[i].txHash.Some?
    ensures i < |Run(ops)| && Run(ops)[i].txHash == Run(ops[..n])[i].txHash
  {
    HashesAreWriteOnce(ops, n, i);
    HashesAgreeWithoutRetry(ops, i);
    HashesAgreeWithoutRetry(ops[..n], i);
  }

  /** A retry keeps the hashes in agreement exactly when the failed run had no execution hash. */
  lemma {:induction false} RetryKeepsAgreementExactly(run: RunRow)
    requires HashesAgree(run) && run.status == Failed && run.kind != SetActiveTraits
    ensures HashesAgree(Retried(run)) <==> run.executionHash.None?
  {
  }

  /** Transaction and chain hash are missing or the execution hash. */
  predicate NoOtherHash(run: RunRow) {
    && (run.txHash.Some? ==> run.txHash == run.executionHash)
    && (run.chainTxHash.Some? ==> run.chainTxHash == run.executionHash)
  }

  /** In every reachable state, retries included, a run knows one hash only; so its hashes agree
      unless, after a retry, the transaction hash is missing. */
  lemma {:induction false} OneHashOnly(ops: seq<Op>, i: nat)
    requires i < |Run(ops)|
    ensures NoOtherHash(Run(ops)[i])
    ensures HashesAgree(Run(ops)[i]) <==> (Run(ops)[i].executionHash.Some? ==> Run(ops)[i].txHash.Some?)
  {
    var before, op := ops[..|ops| - 1], ops[|ops| - 1];
    if i < |Run(before)| {
      OneHashOnly(before, i);
    }
  }

  /** A run that has an execution hash never reports another transaction hash, however it is polled and
      retried: its transaction hash is missing, or is that hash. */
  lemma {:induction false} RetriedRunKeepsItsOldHash(ops: seq<Op>, n: nat, i: nat)
    requires n <= |ops| && i < |Run(ops[..n])|
    requires Run(ops[..n])[i].executionHash.Some?
    ensures i < |Run(ops)|
    ensures Run(ops)[i].txHash.None? || Run(ops)[i].txHash == Run(ops[..n])[i].executionHash
    ensures Run(ops)[i].executionHash == Run(ops[..n])[i].executionHash
  {
    HashesAreWriteOnce(ops, n, i);
    OneHashOnly(ops, i);
  }

  /** A retried run whose chain hash was known never reports a transaction hash again, even if it succeeds. */
  lemma {:induction false} ConfirmedRunLosesItsHash(ops: seq<Op>, n: nat, i: nat)
    requires n <= |ops| && i < |Run(ops[..n])|
    requires Run(ops[..n])[i].chainTxHash.Some? && Run(ops[..n])[i].txHash.None?
    ensures i < |Run(ops)| && Run(ops)[i].chainTxHash.Some? && Run(ops)[i].txHash.None?
    decreases |ops|
  {
    if n < |ops| {
      var before, op := ops[..|ops| - 1], ops[|ops| - 1];
      assert before[..n] == ops[..n];
      ConfirmedRunLosesItsHash(before, n, i);
      OneHashOnly(before, i);
    } else {
      assert ops[..n] == ops;
    }
  }

  /** A run that was retried with an execution hash and no chain hash yet agrees again exactly once a later
      poll has set its chain hash. */
  lemma {:induction false} AgreesAgainExactly(ops: seq<Op>, n: nat, i: nat)
    requires n <= |ops| && i < |Run(ops[..n])| && Untouched(ops, n, i)
    requires var run := Run(ops[..n])[i]; run.executionHash.Some? && run.txHash.None? && run.chainTxHash.None?
    ensures i < |Run(ops)|
    ensures HashesAgree(Run(ops)[i]) <==> Run(ops)[i].chainTxHash.Some?
    ensures Run(ops)[i].txHash == Run(ops)[i].chainTxHash && Run(ops)[i].executionHash.Some?
    decreases |ops|
  {
    if n < |ops| {
      var before, op := ops[..|ops| - 1], ops[|ops| - 1];
      assert before[..n] == ops[..n];
      assert !Retries(op, i);
      AgreesAgainExactly(before, n, i);
    } else {
      assert ops[..n] == ops;
    }
    OneHashOnly(ops, i);
  }

  const OWNER: Traits.Owner := Traits.Owner("brand", "wallet")

  /** A world in which the node reports a status and a hash that has no receipt yet. */
  function Reporting(now: int, status: Status, hash: Hash): World {
    World(now, Answer(Some(status), Some(hash), None, None, None, "", []), _ => None, _ => now)
  }

  function TickAt(now: int, status: Status, hash: Hash): Op {
    TickOp(TickWorld(now, _ => Reporting(now, status, hash)))
  }

  /** A mint fails with a hash, is retried, and succeeds with another: its row keeps the first hash
      and reports no transaction hash. */
  lemma {:induction false} RetryBreaksAgreement()
    ensures
      var ops := [SubmitOp(OtherKind, OWNER, [], true, 0), TickAt(1, Failed, "first"), RetryOp(0, true),
                  TickAt(2, Succeeded, "second")];
      |Run(ops)| == 1 &&
      var run := Run(ops)[0];
      && run.status == Succeeded && run.executionHash == Some("first") && run.txHash == None
      && !HashesAgree(run)
  {
    var submit, fail := SubmitOp(OtherKind, OWNER, [], true, 0), TickAt(1, Failed, "first");
    var retry, succeed := RetryOp(0, true), TickAt(2, Succeeded, "second");
    var ops := [submit, fail, retry, succeed];
    assert ops[..3] == [submit, fail, retry] && ops[..3][..2] == [submit, fail];
    assert [submit, fail][..1] == [submit] && [submit][..0] == [];
    assert Run([submit]) == [FreshRun(OtherKind, OWNER, [], true, 0)];
    assert Run([submit, fail])[0].executionHash == Some("first");
    assert Run([submit, fail])[0].status == Failed;
  }

  // ---------- Deadlines ----------

  /** A tick fetches the run and gets an answer about it. */
  predicate Answered(run: RunRow, op: Op, i: nat) {
    op.TickOp? && Selected(run, op.tick.start) && run.hasReference && op.tick.worlds(i).answer.Answer?
  }

  /** The poll comes later than the timeout allows, counted from the creation of the run. */
  predicate Late(run: RunRow, op: Op, i: nat) {
    op.TickOp? && op.tick.worlds(i).now - run.createdAt > RUN_TIMEOUT_MS
  }

  /** A tick makes the run a succeeded one: an answer within 20 minutes of its creation says so. */
  predicate SucceedsAt(runs: seq<RunRow>, op: Op, i: nat) {
    && i < |runs| && Answered(runs[i], op, i) && !Late(runs[i], op, i)
    && op.tick.worlds(i).answer.status == Some(Succeeded)
  }

  /** What one operation other than its retry does to a run in progress. */
  lemma {:induction false} StepOutcome(runs: seq<RunRow>, op: Op, i: nat)
    requires i < |runs| && !Retries(op, i)
    ensures var run, next := runs[i], Step(runs, op)[i];
      && next.createdAt == run.createdAt && next.kind == run.kind
      && (!Answered(run, op, i) ==> next == run)
      && (Answered(run, op, i) && Late(run, op, i) ==> next == TimedOut(run, op.tick.worlds(i).now))
  {
  }

  lemma {:induction false} StepSucceeds(runs: seq<RunRow>, op: Op, i: nat)
    requires i < |runs|
    ensures Step(runs, op)[i].status == Succeeded <==> runs[i].status == Succeeded || SucceedsAt(runs, op, i)
  {
  }

  /** Some tick of a sequence of operations made the run a succeeded one. */
  predicate SucceededOnce(ops: seq<Op>, i: nat) {
    ops != [] &&
    (SucceededOnce(ops[..|ops| - 1], i) || SucceedsAt(Run(ops[..|ops| - 1]), ops[|ops| - 1], i))
  }

  /** A run is succeeded exactly if a tick within 20 minutes of its creation got that answer. */
  lemma {:induction false} SucceededExactlyInTime(ops: seq<Op>, i: nat)
    ensures i < |Run(ops)| && Run(ops)[i].status == Succeeded <==> SucceededOnce(ops, i)
  {
    if ops != [] {
      var runs, op := Run(ops[..|ops| - 1]), ops[|ops| - 1];
      SucceededExactlyInTime(ops[..|ops| - 1], i);
      if i < |runs| {
        StepSucceeds(runs, op, i);
      }
    }
  }

  /** Every tick from position `n` on polls the run later than its timeout allows. */
  predicate OnlyLateTicks(ops: seq<Op>, n: nat, run: RunRow, i: nat) {
    forall k :: n <= k < |ops| && ops[k].TickOp? ==> Late(run, ops[k], i)
  }

  /** Some tick from position `n` on fetches the run and gets an answer about it. */
  predicate AnsweredFrom(ops: seq<Op>, n: nat, run: RunRow, i: nat) {
    exists k :: n <= k < |ops| && Answered(run, ops[k], i)
  }

  /** The run, apart from the time of its completion, was failed by the timeout. */
  predicate FailedByTimeout(run: RunRow, next: RunRow) {
    next.completedAt.Some? && next == TimedOut(run, next.completedAt.value)
  }

  lemma {:induction false} AnsweredFromStep(ops: seq<Op>, n: nat, run: RunRow, i: nat)
    requires n < |ops|
    ensures var m := |ops| - 1;
      AnsweredFrom(ops, n, run, i) <==> AnsweredFrom(ops[..m], n, run, i) || Answered(run, ops[m], i)
  {
    var m := |ops| - 1;
    if AnsweredFrom(ops[..m], n, run, i) {
      var k :| n <= k < m && Answered(run, ops[..m][k], i);
      assert Answered(run, ops[k], i);
    }
    if AnsweredFrom(ops, n, run, i) && !Answered(run, ops[m], i) {
      var k :| n <= k < |ops| && Answered(run, ops[k], i);
      assert Answered(run, ops[..m][k], i);
    }
  }

  /** What becomes of a run in progress that is polled only after its timeout. */
  lemma {:induction false} LateRunFate(ops: seq<Op>, n: nat, i: nat)
    requires n <= |ops| && i < |Run(ops[..n])| && InProgress(Run(ops[..n])[i].status)
    requires Untouched(ops, n, i) && OnlyLateTicks(ops, n, Run(ops[..n])[i], i)
    ensures i < |Run(ops)|
    ensures var run := Run(ops[..n])[i];
      if AnsweredFrom(ops, n, run, i) then FailedByTimeout(run, Run(ops)[i]) else Run(ops)[i] == run
    decreases |ops|
  {
    var run := Run(ops[..n])[i];
    if n < |ops| {
      var m := |ops| - 1;
      var before, op := ops[..m], ops[m];
      assert before[..n] == ops[..n];
      assert !Retries(op, i) && (op.TickOp? ==> Late(run, op, i));
      LateRunFate(before, n, i);
      StepOutcome(Run(before), op, i);
      AnsweredFromStep(ops, n, run, i);
    } else {
      assert ops[..n] == ops;
    }
  }

  /**
   * A failed run retried so late that all further polls come after its timeout, which counts from
   * its creation: it fails again by the timeout if a tick within a day of its creation gets an
   * answer, whatever that says; otherwise no tick fetches it and it stays queued for ever.
   */
  lemma {:induction false} LateRetryFate(ops: seq<Op>, n: nat, i: nat)
    requires n < |ops| && i < |Run(ops[..n])| && ops[n] == RetryOp(i, true)
    requires Run(ops[..n])[i].status == Failed && Run(ops[..n])[i].kind != SetActiveTraits
    requires Untouched(ops, n + 1, i) && OnlyLateTicks(ops, n + 1, Retried(Run(ops[..n])[i]), i)
    ensures i < |Run(ops)|
    ensures var retried := Retried(Run(ops[..n])[i]);
      if AnsweredFrom(ops, n + 1, retried, i) then FailedByTimeout(retried, Run(ops)[i])
      else Run(ops)[i] == retried && retried.status == Queued
  {
    assert ops[..n + 1][..n] == ops[..n];
    LateRunFate(ops, n + 1, i);
  }

  /** More than a day after its creation no tick changes a retried run. */
  lemma {:induction false} RetryAfterADayIsNeverPolled(ops: seq<Op>, n: nat, i: nat)
    requires n <= |ops| && i < |Run(ops[..n])| && Untouched(ops, n, i)
    requires forall k :: n <= k < |ops| && ops[k].TickOp? ==>
      ops[k].tick.start - Run(ops[..n])[i].createdAt > WINDOW_MS
    ensures i < |Run(ops)| && Run(ops)[i] == Run(ops[..n])[i]
    decreases |ops|
  {
    if n < |ops| {
      var before, op := ops[..|ops| - 1], ops[|ops| - 1];
      assert before[..n] == ops[..n];
      assert !Retries(op, i);
      RetryAfterADayIsNeverPolled(before, n, i);
      StepOutcome(Run(before), op, i);
    } else {
      assert ops[..n] == ops;
    }
  }
}
