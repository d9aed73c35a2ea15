/**
 * The action queue of the automation worker (zealyAutomationWorker.ts): capped
 * attempts with exponential backoff. Clock readings and action outcomes are
 * arbitrary inputs of every tick.
 */
module ActionQueue {
  import opened Wrappers

  const MAX_ATTEMPTS: nat := 5
  const BATCH: nat := 5
  const BASE_MS: int := 10_000
  const CAP_MS: int := 300_000

  datatype Status = Pending | Running | Succeeded | Failed

  datatype Item = Item(status: Status, attempts: nat, updatedAt: int)

  /** What the surroundings do during a tick, per queue position: the clock when the item
      is considered, whether its action succeeds, and the clock when it is over. */
  datatype Surroundings = Surroundings(now: nat -> int, succeeds: nat -> bool, end: nat -> int)

  function Min(a: int, b: int): int {
    if a < b then a else b
  }

  function Pow2(n: nat): (p: int)
    ensures p > 0
  {
    if n == 0 then 1 else 2 * Pow2(n - 1)
  }

  /** The wait demanded after the `attempts`-th failure. */
  function Backoff(attempts: nat): int {
    if attempts == 0 then 0 else Min(Pow2(attempts - 1) * BASE_MS, CAP_MS)
  }

  predicate IsRetryDue(item: Item, now: int) {
    item.attempts == 0 || now - item.updatedAt >= Backoff(item.attempts)
  }

  /** What the worker asks the database for. */
  predicate Eligible(item: Item) {
    (item.status == Pending || item.status == Failed) && item.attempts < MAX_ATTEMPTS
  }

  /** How many eligible items are older than position `i`. */
  function Rank(items: seq<Item>, i: nat): (r: nat)
    requires i <= |items|
    ensures r <= i
  {
    if i == 0 then 0 else Rank(items, i - 1) + if Eligible(items[i - 1]) then 1 else 0
  }

  /** Among the five oldest eligible items. */
  predicate Selected(items: seq<Item>, i: nat)
    requires i < |items|
  {
    Eligible(items[i]) && Rank(items, i) < BATCH
  }

  predicate Runs(items: seq<Item>, i: nat, w: Surroundings)
    requires i < |items|
  {
    Selected(items, i) && !(items[i].status == Failed && !IsRetryDue(items[i], w.now(i)))
  }

  function Executed(item: Item, succeeds: bool, end: int): Item {
    Item(if succeeds then Succeeded else Failed, item.attempts + 1, end)
  }

  /** One tick: every selected item that is new or due is executed once, all others stay. */
  function Tick(items: seq<Item>, w: Surroundings): (next: seq<Item>)
    ensures |next| == |items|
    ensures forall i :: 0 <= i < |items| ==>
      next[i] == if Runs(items, i, w) then Executed(items[i], w.succeeds(i), w.end(i)) else items[i]
  {
    seq(|items|, i requires 0 <= i < |items| =>
      if Runs(items, i, w) then Executed(items[i], w.succeeds(i), w.end(i)) else items[i])
  }

  class Worker {
    var items: seq<Item>

    constructor ()
      ensures items == []
    {
      items := [];
    }

    method Enqueue(now: int)
      modifies this
      ensures items == old(items) + [Item(Pending, 0, now)]
    {
      items := items + [Item(Pending, 0, now)];
    }

    /** The positions of the five oldest eligible items. */
    method FindEligible() returns (found: seq<nat>)
      ensures forall k :: 0 <= k < |found| ==> found[k] < |items| && Selected(items, found[k])
      ensures forall k, l :: 0 <= k < l < |found| ==> found[k] < found[l]
      ensures forall i :: 0 <= i < |items| && Selected(items, i) ==> i in found
    {
      found := [];
      for i := 0 to |items|
        invariant |found| == Min(Rank(items, i), BATCH)
        invariant forall k :: 0 <= k < |found| ==> found[k] < i && Selected(items, found[k])
        invariant forall k, l :: 0 <= k < l < |found| ==> found[k] < found[l]
        invariant forall j :: 0 <= j < i && Selected(items, j) ==> j in found
      {
        if Eligible(items[i]) && |found| < BATCH {
          found := found + [i];
        }
      }
    }

    /** `processActionQueue` */
    method ProcessActionQueue(w: Surroundings)
      modifies this
      ensures items == Tick(old(items), w)
    {
      var found := FindEligible();
      var snapshot := items;
      for k := 0 to |found|
        invariant |items| == |snapshot|
        invariant forall i :: 0 <= i < |snapshot| ==>
          items[i] == if i in found[..k] then Tick(snapshot, w)[i] else snapshot[i]
      {
        assert found[..k + 1] == found[..k] + [found[k]];
        var at := found[k];
        assert at !in found[..k];
        var item := snapshot[at];
        if item.status == Failed && !IsRetryDue(item, w.now(at)) {
          continue;
        }
        items := items[at := items[at].(status := Running, attempts := items[at].attempts + 1)];
        if w.succeeds(at) {
          items := items[at := items[at].(status := Succeeded, updatedAt := w.end(at))];
        } else {
          items := items[at := items[at].(status := Failed, updatedAt := w.end(at))];
        }
      }
      assert found[..|found|] == found;
      assert items == Tick(snapshot, w);
    }
  }

  // ---------- Which items a tick takes ----------

  /** How many of the first `n` items are selected. */
  function Taken(items: seq<Item>, n: nat): nat
    requires n <= |items|
  {
    if n == 0 then 0 else Taken(items, n - 1) + if Selected(items, n - 1) then 1 else 0
  }

  /** A tick takes five eligible items, or all of them if there are fewer. */
  lemma {:induction false} TakesUpToFive(items: seq<Item>, n: nat)
    requires n <= |items|
    ensures Taken(items, n) == Min(Rank(items, n), BATCH)
  {
    if n > 0 {
      TakesUpToFive(items, n - 1);
    }
  }

  lemma {:induction false} RankGrows(items: seq<Item>, j: nat, i: nat)
    requires j <= i <= |items|
    ensures Rank(items, j) <= Rank(items, i)
    decreases i
  {
    if j < i {
      RankGrows(items, j, i - 1);
    }
  }

  /** They are the oldest: no eligible item is passed over for a younger one. */
  lemma {:induction false} OldestFirst(items: seq<Item>, j: nat, i: nat)
    requires j < i < |items| && Eligible(items[j]) && Selected(items, i)
    ensures Selected(items, j)
  {
    RankGrows(items, j, i);
  }

  // ---------- Runs of the queue ----------

  datatype Op = EnqueueOp(now: int) | TickOp(world: Surroundings)

  function Step(items: seq<Item>, op: Op): (next: seq<Item>)
    ensures |items| <= |next| <= |items| + 1
  {
    match op
    case EnqueueOp(now) => items + [Item(Pending, 0, now)]
    case TickOp(w) => Tick(items, w)
  }

  function Run(ops: seq<Op>): seq<Item> {
    if ops == [] then [] else Step(Run(ops[..|ops| - 1]), ops[|ops| - 1])
  }

  /** One execution of an action. */
  datatype Execution = Execution(start: int, end: int, ok: bool)

  function ExecutionIn(items: seq<Item>, op: Op, i: nat): seq<Execution> {
    if op.TickOp? && i < |items| && Runs(items, i, op.world)
    then [Execution(op.world.now(i), op.world.end(i), op.world.succeeds(i))]
    else []
  }

  /** Every execution of the item at position `i`, in order. */
  function Executions(ops: seq<Op>, i: nat): seq<Execution> {
    if ops == [] then []
    else Executions(ops[..|ops| - 1], i) + ExecutionIn(Run(ops[..|ops| - 1]), ops[|ops| - 1], i)
  }

  /** The waits demanded between consecutive executions were kept, and all but the last failed. */
  predicate WellSpaced(es: seq<Execution>) {
    forall k :: 0 <= k < |es| - 1 ==> !es[k].ok && es[k + 1].start - es[k].end >= Backoff(k + 1)
  }

  /** An item's row tells its execution history. */
  predicate Tells(item: Item, es: seq<Execution>) {
    && item.attempts == |es| <= MAX_ATTEMPTS
    && WellSpaced(es)
    && (es == [] <==> item.status == Pending)
    && (es != [] ==> item.updatedAt == es[|es| - 1].end
                     && item.status == if es[|es| - 1].ok then Succeeded else Failed)
  }

  lemma {:induction false} ExecutionExtends(item: Item, es: seq<Execution>, e: Execution)
    requires Tells(item, es) && Eligible(item)
    requires item.status == Failed ==> IsRetryDue(item, e.start)
    ensures Tells(Executed(item, e.ok, e.end), es + [e])
  {
    var longer := es + [e];
    forall k | 0 <= k < |longer| - 1
      ensures !longer[k].ok && longer[k + 1].start - longer[k].end >= Backoff(k + 1)
    {
      if k < |es| - 1 {
        assert longer[k] == es[k] && longer[k + 1] == es[k + 1];
      }
    }
  }

  lemma {:induction false} NoExecutionsYet(ops: seq<Op>, i: nat)
    requires i >= |Run(ops)|
    ensures Executions(ops, i) == []
  {
    if ops != [] {
      NoExecutionsYet(ops[..|ops| - 1], i);
    }
  }

  /**
   * After any run, each item's attempts are exactly its executions, at most five;
   * no item is RUNNING between ticks; an item is SUCCEEDED exactly when its last
   * execution succeeded, and nothing was executed after a success; and before the
   * execution following the k-th failure at least the k-th backoff had passed.
   */
  lemma {:induction false} RowsTellTheirHistory(ops: seq<Op>, i: nat)
    requires i < |Run(ops)|
    ensures Tells(Run(ops)[i], Executions(ops, i))
  {
    var n := |ops| - 1;
    var items, op := Run(ops[..n]), ops[n];
    if i < |items| {
      RowsTellTheirHistory(ops[..n], i);
      if op.TickOp? && Runs(items, i, op.world) {
        ExecutionExtends(items[i], Executions(ops[..n], i),
                         Execution(op.world.now(i), op.world.end(i), op.world.succeeds(i)));
      } else {
        assert Executions(ops, i) == Executions(ops[..n], i);
      }
    } else {
      NoExecutionsYet(ops[..n], i);
    }
  }

  /** SUCCEEDED is absorbing, and so is a fifth failure. */
  lemma {:induction false} FinishedItemsStay(ops: seq<Op>, m: nat, i: nat)
    requires m <= |ops| && i < |Run(ops[..m])|
    requires Run(ops[..m])[i].status == Succeeded || Run(ops[..m])[i].attempts >= MAX_ATTEMPTS
    ensures i < |Run(ops)| && Run(ops)[i] == Run(ops[..m])[i]
    decreases |ops|
  {
    if m < |ops| {
      assert ops[..|ops| - 1][..m] == ops[..m];
      FinishedItemsStay(ops[..|ops| - 1], m, i);
    } else {
      assert ops[..m] == ops;
    }
  }

  // ---------- Backoff arithmetic ----------

  /** Below the attempt limit the backoff is 10 s doubled with each failure; the five-minute cap is out of reach. */
  lemma {:induction false} BackoffIsUncapped(a: nat)
    requires 1 <= a < MAX_ATTEMPTS
    ensures Backoff(a) == BASE_MS * Pow2(a - 1) < CAP_MS
  {
    assert Pow2(0) == 1 && Pow2(1) == 2 && Pow2(2) == 4 && Pow2(3) == 8;
    assert a == 1 || a == 2 || a == 3 || a == 4;
  }

  /** The longest wait the worker can demand. */
  lemma {:induction false} LongestBackoff(item: Item)
    requires Eligible(item)
    ensures Backoff(item.attempts) <= 80_000
  {
    if item.attempts > 0 {
      BackoffIsUncapped(item.attempts);
      assert Pow2(0) == 1 && Pow2(1) == 2 && Pow2(2) == 4 && Pow2(3) == 8;
    }
  }

  /** The clock does not run backwards while an action is executed. */
  predicate ClocksAdvance(es: seq<Execution>) {
    forall k :: 0 <= k < |es| ==> es[k].start <= es[k].end
  }

  /** An item that failed five times did so over at least 150 seconds. */
  lemma {:induction false} ExhaustedItemsWaited(ops: seq<Op>, i: nat)
    requires i < |Run(ops)| && Run(ops)[i].attempts >= MAX_ATTEMPTS
    requires ClocksAdvance(Executions(ops, i))
    ensures var es := Executions(ops, i);
      |es| == 5 && es[4].start - es[0].end >= 150_000
  {
    RowsTellTheirHistory(ops, i);
    var es := Executions(ops, i);
    BackoffIsUncapped(1);
    BackoffIsUncapped(2);
    BackoffIsUncapped(3);
    BackoffIsUncapped(4);
    assert Pow2(0) == 1 && Pow2(1) == 2 && Pow2(2) == 4 && Pow2(3) == 8;
    assert es[0 + 1].start - es[0].end >= Backoff(1);
    assert es[1 + 1].start - es[1].end >= Backoff(2);
    assert es[2 + 1].start - es[2].end >= Backoff(3);
    assert es[3 + 1].start - es[3].end >= Backoff(4);
  }

  /** A failed item among the five oldest eligible ones is executed by a tick exactly if its own backoff, 10 s
      doubled with each failure but the first, has passed; a new one is executed at once. */
  lemma {:induction false} RetriedExactlyWhenDue(items: seq<Item>, i: nat, w: Surroundings)
    requires i < |items| && Selected(items, i) && items[i].attempts >= 1
    ensures items[i].status == Failed ==>
      (Tick(items, w)[i].attempts == items[i].attempts + 1
       <==> w.now(i) - items[i].updatedAt >= 10_000 * Pow2(items[i].attempts - 1))
    ensures items[i].status == Failed ==>
      (Tick(items, w)[i] == items[i] <==> w.now(i) - items[i].updatedAt < 10_000 * Pow2(items[i].attempts - 1))
  {
    BackoffIsUncapped(items[i].attempts);
  }

  /** An item that is new is executed by the first tick that has it among the five oldest eligible ones. */
  lemma {:induction false} NewItemsRunAtOnce(items: seq<Item>, i: nat, w: Surroundings)
    requires i < |items| && Selected(items, i) && items[i].status == Pending
    ensures var next := Tick(items, w)[i];
      && next.attempts == items[i].attempts + 1 && next.updatedAt == w.end(i)
      && next.status == if w.succeeds(i) then Succeeded else Failed
  {
  }

  // ---------- Items that hold up others ----------

  /** The item waits out its backoff. */
  predicate Waits(item: Item, now: int) {
    item.status == Failed && !IsRetryDue(item, now)
  }

  /** All of the five oldest eligible items wait. */
  predicate Stalled(items: seq<Item>, w: Surroundings) {
    forall i :: 0 <= i < |items| && Selected(items, i) ==> Waits(items[i], w.now(i))
  }

  /** A tick does nothing exactly if none of the five oldest eligible items is new or due,
      however many younger ones are. */
  lemma {:induction false} StallsExactly(items: seq<Item>, w: Surroundings)
    ensures Tick(items, w) == items <==> Stalled(items, w)
  {
    if Tick(items, w) == items {
      forall i | 0 <= i < |items| && Selected(items, i)
        ensures Waits(items[i], w.now(i))
      {
        assert Tick(items, w)[i] == items[i];
      }
    }
  }

  function Ticks(items: seq<Item>, ws: seq<Surroundings>): seq<Item> {
    if ws == [] then items else Tick(Ticks(items, ws[..|ws| - 1]), ws[|ws| - 1])
  }

  /** As long as the five oldest eligible items wait, every younger item is held up, be it new or due. */
  lemma {:induction false} HeldUp(items: seq<Item>, ws: seq<Surroundings>, i: nat)
    requires i < |items| && Rank(items, i) >= BATCH
    requires forall k, j :: 0 <= k < |ws| && 0 <= j < i && Selected(items, j) ==> Waits(items[j], ws[k].now(j))
    ensures Ticks(items, ws) == items
  {
    if ws != [] {
      var n := |ws| - 1;
      HeldUp(items, ws[..n], i);
      forall j | 0 <= j < |items| && Selected(items, j)
        ensures Waits(items[j], ws[n].now(j))
      {
        if i <= j {
          RankGrows(items, i, j);
          assert false;
        }
      }
      StallsExactly(items, ws[n]);
    }
  }

  lemma {:induction false} EnqueuedItems(n: nat)
    ensures Run(seq(n, _ => EnqueueOp(0))) == seq(n, _ => Item(Pending, 0, 0))
  {
    var ops, items := seq(n, _ => EnqueueOp(0)), seq(n, _ => Item(Pending, 0, 0));
    if n > 0 {
      EnqueuedItems(n - 1);
      assert ops[..n - 1] == seq(n - 1, _ => EnqueueOp(0));
      assert items == seq(n - 1, _ => Item(Pending, 0, 0)) + [Item(Pending, 0, 0)];
    }
  }

  lemma {:induction false} RankAmongEligible(items: seq<Item>, i: nat)
    requires i <= |items| && forall j :: 0 <= j < i ==> Eligible(items[j])
    ensures Rank(items, i) == i
  {
    if i > 0 {
      RankAmongEligible(items, i - 1);
    }
  }

  const FIVE_FAILED: seq<Item> := seq(5, _ => Item(Failed, 1, 0)) + [Item(Pending, 0, 0)]

  const FAILING: Surroundings := Surroundings(_ => 0, _ => false, _ => 0)

  lemma {:induction false} FirstTickFailsFive(items: seq<Item>)
    requires items == seq(6, _ => Item(Pending, 0, 0))
    ensures Tick(items, FAILING) == FIVE_FAILED
  {
    forall i | 0 <= i < 6
      ensures Tick(items, FAILING)[i] == FIVE_FAILED[i]
    {
      RankAmongEligible(items, i);
    }
  }

  lemma {:induction false} FiveFailedStall(w: Surroundings)
    requires forall j: nat :: w.now(j) < 10_000
    ensures Stalled(FIVE_FAILED, w)
  {
    RankAmongEligible(FIVE_FAILED, 5);
    BackoffIsUncapped(1);
    assert Pow2(0) == 1;
  }

  /** Such a queue arises: of six new items the first tick fails five, and for the next ten seconds
      no tick looks at the sixth, which was never tried. */
  lemma {:induction false} SixthItemIsHeldUp(w: Surroundings)
    requires forall j: nat :: w.now(j) < 10_000
    ensures Run(seq(6, _ => EnqueueOp(0)) + [TickOp(FAILING)]) == FIVE_FAILED && Tick(FIVE_FAILED, w) == FIVE_FAILED
  {
    var enqueues := seq(6, _ => EnqueueOp(0));
    EnqueuedItems(6);
    assert (enqueues + [TickOp(FAILING)])[..6] == enqueues;
    FirstTickFailsFive(Run(enqueues));
    FiveFailedStall(w);
    StallsExactly(FIVE_FAILED, w);
  }

  // ---------- Termination ----------

  function Left(item: Item): nat {
    if item.status == Succeeded || item.attempts >= MAX_ATTEMPTS then 0 else MAX_ATTEMPTS - item.attempts
  }

  /** The attempts the queue can still make. */
  function Remaining(items: seq<Item>): nat {
    if items == [] then 0 else Remaining(items[..|items| - 1]) + Left(items[|items| - 1])
  }

  predicate NoneEligible(items: seq<Item>) {
    forall i :: 0 <= i < |items| ==> !Eligible(items[i])
  }

  /** The clock has passed every backoff the worker might be waiting for. */
  predicate PastBackoff(items: seq<Item>, w: Surroundings) {
    forall i :: 0 <= i < |items| && Eligible(items[i]) ==> w.now(i) - items[i].updatedAt >= 80_000
  }

  lemma {:induction false} RemainingIsMonotone(a: seq<Item>, b: seq<Item>)
    requires |a| == |b| && forall i :: 0 <= i < |a| ==> Left(b[i]) <= Left(a[i])
    ensures Remaining(b) <= Remaining(a)
    ensures (exists i :: 0 <= i < |a| && Left(b[i]) < Left(a[i])) ==> Remaining(b) < Remaining(a)
  {
    if a != [] {
      RemainingIsMonotone(a[..|a| - 1], b[..|b| - 1]);
      forall i | 0 <= i < |a| - 1 && Left(b[i]) < Left(a[i])
        ensures Left(b[..|b| - 1][i]) < Left(a[..|a| - 1][i])
      {
      }
    }
  }

  lemma {:induction false} FirstEligible(items: seq<Item>, i: nat) returns (f: nat)
    requires i < |items| && Eligible(items[i])
    ensures f < |items| && Eligible(items[f]) && Rank(items, f) == 0
    decreases i
  {
    if Rank(items, i) == 0 {
      f := i;
    } else {
      var j := RankedBefore(items, i);
      f := FirstEligible(items, j);
    }
  }

  lemma {:induction false} RankedBefore(items: seq<Item>, i: nat) returns (j: nat)
    requires i <= |items| && Rank(items, i) > 0
    ensures j < i && Eligible(items[j])
  {
    j := i - 1;
    if !Eligible(items[i - 1]) {
      j := RankedBefore(items, i - 1);
    }
  }

  /** A tick never adds attempts; one that comes after the longest backoff makes at least one,
      if any item is eligible. */
  lemma {:induction false} TickMakesProgress(items: seq<Item>, w: Surroundings)
    ensures Remaining(Tick(items, w)) <= Remaining(items)
    ensures PastBackoff(items, w) && !NoneEligible(items) ==> Remaining(Tick(items, w)) < Remaining(items)
  {
    RemainingIsMonotone(items, Tick(items, w));
    if PastBackoff(items, w) && !NoneEligible(items) {
      var i :| 0 <= i < |items| && Eligible(items[i]);
      var f := FirstEligible(items, i);
      LongestBackoff(items[f]);
      assert Runs(items, f, w);
      assert Left(Tick(items, w)[f]) < Left(items[f]);
    }
  }

  /** Every tick of the series comes after the longest backoff. */
  predicate AllPastBackoff(items: seq<Item>, ws: seq<Surroundings>) {
    ws != [] ==> AllPastBackoff(items, ws[..|ws| - 1]) && PastBackoff(Ticks(items, ws[..|ws| - 1]), ws[|ws| - 1])
  }

  lemma {:induction false} TicksRunOut(items: seq<Item>, ws: seq<Surroundings>)
    requires AllPastBackoff(items, ws)
    ensures NoneEligible(Ticks(items, ws)) || Remaining(Ticks(items, ws)) + |ws| <= Remaining(items)
  {
    if ws != [] {
      var before, w := ws[..|ws| - 1], ws[|ws| - 1];
      TicksRunOut(items, before);
      TickMakesProgress(Ticks(items, before), w);
      if NoneEligible(Ticks(items, before)) {
        assert Ticks(items, ws) == Ticks(items, before);
      }
    }
  }

  lemma {:induction false} EligibleRemains(items: seq<Item>)
    ensures Remaining(items) == 0 ==> NoneEligible(items)
  {
    if items != [] {
      EligibleRemains(items[..|items| - 1]);
      assert forall i :: 0 <= i < |items| - 1 ==> items[i] == items[..|items| - 1][i];
    }
  }

  /** With enough ticks, each after the longest backoff, nothing stays eligible, whatever the outcomes. */
  lemma {:induction false} QueueDrains(items: seq<Item>, ws: seq<Surroundings>)
    requires AllPastBackoff(items, ws) && |ws| >= Remaining(items)
    ensures NoneEligible(Ticks(items, ws))
  {
    TicksRunOut(items, ws);
    EligibleRemains(Ticks(items, ws));
  }

  /** And an item of a queue where nothing is eligible has succeeded, or was tried exactly five times and failed. */
  lemma {:induction false} DrainedItemsAreDone(ops: seq<Op>, i: nat)
    requires i < |Run(ops)| && NoneEligible(Run(ops))
    ensures Run(ops)[i].status == Succeeded
      || (Run(ops)[i].status == Failed && |Executions(ops, i)| == 5 && !Executions(ops, i)[4].ok)
  {
    RowsTellTheirHistory(ops, i);
    assert !Eligible(Run(ops)[i]);
  }
}
