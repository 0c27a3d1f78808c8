/** The scheduler: drains of a task in a tick's first half, and its queue half with exponential backoff
    and a give-up limit, which the drains do not have. */
module Scheduler {
  import opened Trees
  import opened Actions
  import opened FileIndex
  import opened Timestamps
  import opened OperationQueue
  import opened Execution
  import opened Drain
  import opened FreshQueue
  import opened PlanLoops
  import opened Planner
  import opened Service

  const GIVE_UP := 10

  function Shift(k: nat): (n: nat)
    ensures n >= 1
  {
    if k == 0 then 1 else 2 * Shift(k - 1)
  }

  /** Seconds until the next attempt. */
  function NextBackoff(attempt: int): nat {
    if attempt <= 1 then 1
    else
      var backoff := Shift(if attempt - 1 < 8 then attempt - 1 else 8);
      if backoff > 300 then 300 else backoff
  }

  lemma {:induction false} ShiftMonotone(j: nat, k: nat)
    requires j <= k
    ensures Shift(j) <= Shift(k)
  {
    if j < k {
      ShiftMonotone(j, k - 1);
    }
  }

  lemma ShiftEight()
    ensures Shift(8) == 256
  {
    assert Shift(2) == 4;
    assert Shift(4) == 16;
    assert Shift(6) == 64;
  }

  /** The delays never shrink and stay between 1 and 256 seconds: the five-minute cap is never reached. */
  lemma BackoffBounds(m: int, n: int)
    requires m <= n
    ensures 1 <= NextBackoff(m) <= NextBackoff(n) <= 256
    ensures 1 <= n <= 9 ==> NextBackoff(n) == Shift(n - 1)
  {
    ShiftEight();
    var j, k := if m - 1 < 8 then m - 1 else 8, if n - 1 < 8 then n - 1 else 8;
    if n > 1 {
      ShiftMonotone(k, 8);
      if m > 1 {
        ShiftMonotone(j, k);
      }
    }
  }

  /** What happens to one due item: its task or connection cannot be resolved, or it is attempted. An item
      of another task is attempted on trees outside the model; only the outcome is given. An item that is no
      action runs its task again, which drains that task's rows: this task's, or another's. */
  datatype Delivery =
    | Unresolved
    | Elsewhere(ok: bool)
    | Resolved(fault: Fault)
    | Reran(ok: bool, queued: Table, items: seq<Item>, faults: string -> Fault, retryAt: string)
    | RanElsewhere(ok: bool, sides: Sides, index: Index, queued: Table, items: seq<Item>,
                   faults: string -> Fault, retryAt: string)

  /** Only an action can be attempted on the trees, and only what is none runs a task. */
  predicate Fits(op: Item, d: Delivery) {
    && (d.Resolved? || d.Elsewhere? ==> op.op.Sync?)
    && (d.Reran? || d.RanElsewhere? ==> op.op.BaselineSync?)
  }

  function Deliver(s: System, op: Item, d: Delivery): Attempt
    requires Fits(op, d)
  {
    match d
    case Unresolved => Attempt(s, false)
    case Elsewhere(ok) => Attempt(s, ok)
    case Resolved(fault) => Execute(s, op, op.op.action, fault)
    case Reran(ok, queued, items, faults, retryAt) =>
      Attempt(DrainItems(s.(rows := queued), items, faults, retryAt).system, ok)
    case RanElsewhere(ok, sides, index, queued, items, faults, retryAt) =>
      Attempt(s.(rows := DrainItems(System(sides, index, queued), items, faults, retryAt).system.rows), ok)
  }

  /** The item's row after its delivery, from the copy that the tick listed: ended, given up, or left to a later
      attempt; later gives the timestamp that many seconds from now. */
  function Marked(rows: Table, op: Item, ok: bool, later: nat -> string): Table {
    if ok then SetStatus(rows, op.id, Succeeded)
    else if op.attempts + 1 >= GIVE_UP then SetStatus(rows, op.id, GaveUp)
    else Reschedule(rows, op.(attempts := op.attempts + 1, next := later(NextBackoff(op.attempts + 1))))
  }

  /** One item of a tick. */
  function TickItem(s: System, op: Item, d: Delivery, later: nat -> string): System
    requires Fits(op, d)
  {
    var r := Deliver(s, op, d);
    r.system.(rows := Marked(r.system.rows, op, r.ok, later))
  }

  /** What is done with the item's row after its delivery. */
  lemma TickItemMarks(s: System, op: Item, d: Delivery, later: nat -> string)
    requires Fits(op, d)
    ensures var r, t := Deliver(s, op, d).system, TickItem(s, op, d, later);
            && t.sides == r.sides && t.index == r.index && t.rows.Keys == r.rows.Keys
            && (forall id :: id in r.rows && id != op.id ==> t.rows[id] == r.rows[id])
            && (op.id in r.rows ==> SameWork(r.rows[op.id], t.rows[op.id]))
  {
  }

  predicate AllFit(ops: seq<Item>, ds: seq<Delivery>) {
    |ds| == |ops| && forall k :: 0 <= k < |ops| ==> Fits(ops[k], ds[k])
  }

  /** The items of tasks that ran earlier in the tick are passed over. */
  function TickItems(s: System, ops: seq<Item>, executed: set<string>, ds: seq<Delivery>, later: nat -> string): System
    requires AllFit(ops, ds)
  {
    if ops == [] then s
    else
      var n := |ops| - 1;
      var s1 := TickItems(s, ops[..n], executed, ds[..n], later);
      if ops[n].task in executed then s1 else TickItem(s1, ops[n], ds[n], later)
  }

  /** The two rows differ in the retry columns at most. */
  predicate SameWork(a: Item, b: Item) {
    b == a.(status := b.status, attempts := b.attempts, next := b.next)
  }

  /** How often an item can still be processed. */
  function Remaining(item: Item): nat {
    if item.status.Terminal() then 0 else if item.attempts >= GIVE_UP then 1 else GIVE_UP - item.attempts
  }

  ghost predicate DueItems(t: Table, ops: seq<Item>) {
    Current(t, ops) && forall k :: 0 <= k < |ops| ==> ops[k].status.Live()
  }

  predicate Processes(ops: seq<Item>, executed: set<string>, id: string) {
    exists k :: 0 <= k < |ops| && ops[k].id == id && ops[k].task !in executed
  }

  /** A processed item becomes terminal, or stays live below the limit with one more attempt; only its
      retry columns change. */
  ghost predicate Progressed(before: Item, after: Item) {
    && SameWork(before, after)
    && (after.status.Terminal() || (after.status.Live() && after.attempts == before.attempts + 1 < GIVE_UP))
    && Remaining(after) < Remaining(before)
  }

  lemma TickItemProgress(s: System, op: Item, d: Delivery, later: nat -> string, id: string)
    requires op.id in s.rows && s.rows[op.id] == op && Fits(op, d) && op.status.Live() && !Runs(d)
    ensures var t := TickItem(s, op, d, later).rows;
            && t.Keys == s.rows.Keys && Progressed(op, t[op.id])
            && (id in t && id != op.id ==> t[id] == s.rows[id])
  {
    if d.Resolved? {
      ExecuteRows(s, op, op.op.action, d.fault, id);
    }
  }

  /** An item whose task cannot be resolved is never taken for a success: it costs an attempt and nothing else
      happens. An item of another task ends well exactly if it did there. */
  lemma UnattemptedHere(s: System, op: Item, later: nat -> string, ok: bool)
    requires op.id in s.rows && s.rows[op.id] == op && op.status.Live() && op.op.Sync?
    ensures var t := TickItem(s, op, Unresolved, later);
            && t.sides == s.sides && t.index == s.index
            && (op.attempts + 1 >= GIVE_UP ==> t.rows[op.id].status.GaveUp?)
            && (op.attempts + 1 < GIVE_UP ==>
                  && t.rows[op.id].status.Live() && t.rows[op.id].attempts == op.attempts + 1
                  && t.rows[op.id].next == later(NextBackoff(op.attempts + 1)))
    ensures var t := TickItem(s, op, Elsewhere(ok), later);
            && t.sides == s.sides && t.index == s.index && (t.rows[op.id].status.Succeeded? <==> ok)
  {
  }

  predicate Runs(d: Delivery) {
    d.Reran? || d.RanElsewhere?
  }

  ghost predicate NoneRuns(ds: seq<Delivery>) {
    forall d :: d in ds ==> !Runs(d)
  }

  lemma ProcessesLast(ops: seq<Item>, executed: set<string>, id: string)
    requires ops != []
    ensures var op := ops[|ops| - 1];
            Processes(ops, executed, id) <==>
            Processes(ops[..|ops| - 1], executed, id) || (op.id == id && op.task !in executed)
  {
    var front := ops[..|ops| - 1];
    if k :| 0 <= k < |front| && front[k].id == id && front[k].task !in executed {
      assert ops[k].id == id;
    }
  }

  lemma AllFitFront(ops: seq<Item>, ds: seq<Delivery>)
    requires AllFit(ops, ds) && ops != []
    ensures AllFit(ops[..|ops| - 1], ds[..|ops| - 1])
    ensures NoneRuns(ds) ==> NoneRuns(ds[..|ops| - 1]) && !Runs(ds[|ops| - 1])
  {
  }

  /** One tick in which no item runs a task: every processed item progresses and no other row changes. */
  lemma {:induction false} TickProgress(s: System, ops: seq<Item>, executed: set<string>, ds: seq<Delivery>,
                                        later: nat -> string, id: string)
    requires DueItems(s.rows, ops) && AllFit(ops, ds) && id in s.rows
    requires NoneRuns(ds)
    ensures var t := TickItems(s, ops, executed, ds, later).rows;
            && t.Keys == s.rows.Keys
            && (if Processes(ops, executed, id) then Progressed(s.rows[id], t[id]) else t[id] == s.rows[id])
  {
    if ops != [] {
      var n := |ops| - 1;
      var op, front := ops[n], ops[..n];
      FrontDue(s.rows, ops);
      AllFitFront(ops, ds);
      TickProgress(s, front, executed, ds[..n], later, id);
      TickProgress(s, front, executed, ds[..n], later, op.id);
      ProcessesLast(ops, executed, id);
      if op.task !in executed {
        TickItemProgress(TickItems(s, front, executed, ds[..n], later), op, ds[n], later, id);
      }
    }
  }

  lemma FrontDue(t: Table, ops: seq<Item>)
    requires DueItems(t, ops) && ops != []
    ensures var n := |ops| - 1;
            && DueItems(t, ops[..n]) && ops[n].id in t && t[ops[n].id] == ops[n]
            && ops[n].status.Live()
            && forall executed :: !Processes(ops[..n], executed, ops[n].id)
  {
    var n := |ops| - 1;
    assert forall k :: 0 <= k < n ==> ops[..n][k] == ops[k];
  }

  // ---- runs of drains, ticks and manual retries ---------------------------------------------------

  /** One step of the service. A drain first adds the rows of a new plan, possibly none. */
  datatype Step =
    | RunTask(queued: Table, items: seq<Item>, faults: string -> Fault, retryAt: string)
    | Tick(ops: seq<Item>, executed: set<string>, ds: seq<Delivery>, later: nat -> string)
    | RetryTask(task: string)          // reset all of a task's waiting or stuck items
    | RetryMatching(ids: set<string>)  // re-queue the waiting or stuck items a failure record matches
    | OtherTask(other: string, sides: Sides, index: Index, queued: Table, items: seq<Item>,
                faults: string -> Fault, retryAt: string)  // another task's drain, on trees and index of its own

  /** The task's drain adds rows of its own and goes through rows of its own. */
  ghost predicate Drains(task: string, before: Table, queued: Table, items: seq<Item>) {
    Extends(before, queued, task) && Current(queued, items) && forall item :: item in items ==> item.task == task
  }

  /** The delivery is one for an item of the system's task or of another, and drains what is there. */
  ghost predicate Deliverable(task: string, s: System, op: Item, d: Delivery) {
    Fits(op, d) &&
    match d
    case Unresolved => true
    case Elsewhere(_) => op.task != task
    case Resolved(_) => op.task == task
    case Reran(_, queued, items, _, _) => op.task == task && Drains(task, s.rows, queued, items)
    case RanElsewhere(_, _, _, queued, items, _, _) => op.task != task && Drains(op.task, s.rows, queued, items)
  }

  /** Each delivery of a tick fits what the ones before it left. */
  ghost predicate TickOk(task: string, s: System, ops: seq<Item>, executed: set<string>, ds: seq<Delivery>,
                         later: nat -> string)
  {
    AllFit(ops, ds) &&
    (ops == [] ||
     var n := |ops| - 1;
     && TickOk(task, s, ops[..n], executed, ds[..n], later)
     && (ops[n].task !in executed ==>
           Deliverable(task, TickItems(s, ops[..n], executed, ds[..n], later), ops[n], ds[n])))
  }

  /** The step can be taken: it works on current rows, and attempts items of the system's task only. */
  ghost predicate Enabled(task: string, s: System, step: Step) {
    match step
    case RunTask(queued, items, _, _) => Drains(task, s.rows, queued, items)
    case OtherTask(other, _, _, queued, items, _, _) => other != task && Drains(other, s.rows, queued, items)
    case Tick(ops, executed, ds, later) => DueItems(s.rows, ops) && TickOk(task, s, ops, executed, ds, later)
    case _ => true
  }

  ghost function TakeStep(task: string, s: System, step: Step): System
    requires Enabled(task, s, step)
  {
    match step
    case RunTask(queued, items, faults, retryAt) => DrainItems(s.(rows := queued), items, faults, retryAt).system
    case Tick(ops, executed, ds, later) => TickItems(s, ops, executed, ds, later)
    case RetryTask(id) => s.(rows := ResetRetryable(s.rows, id))
    case RetryMatching(ids) => s.(rows := RetrySome(s.rows, ids))
    case OtherTask(_, sides, index, queued, items, faults, retryAt) =>
      s.(rows := DrainItems(System(sides, index, queued), items, faults, retryAt).system.rows)
  }

  ghost predicate RunOf(task: string, states: seq<System>, steps: seq<Step>) {
    && |states| == |steps| + 1
    && forall k :: 0 <= k < |steps| ==> StepAt(task, states, steps, k)
  }

  ghost predicate StepAt(task: string, states: seq<System>, steps: seq<Step>, k: nat)
    requires |states| == |steps| + 1 && k < |steps|
  {
    Enabled(task, states[k], steps[k]) && states[k + 1] == TakeStep(task, states[k], steps[k])
  }

  lemma RunGoesOn(task: string, states: seq<System>, steps: seq<Step>, step: Step, s: System)
    requires RunOf(task, states, steps) && Enabled(task, states[|steps|], step)
    requires s == TakeStep(task, states[|steps|], step)
    ensures RunOf(task, states + [s], steps + [step])
  {
    forall k | 0 <= k < |steps| + 1 ensures StepAt(task, states + [s], steps + [step], k) {
      assert k < |steps| ==> StepAt(task, states, steps, k);
    }
  }

  /** How many of the first n steps process the item in a tick's queue half. */
  function Processed(steps: seq<Step>, n: nat, id: string): nat
    requires n <= |steps|
  {
    if n == 0 then 0
    else Processed(steps, n - 1, id) +
         (if steps[n - 1].Tick? && Processes(steps[n - 1].ops, steps[n - 1].executed, id) then 1 else 0)
  }

  /** A drain never gives an item back any of its processings. */
  lemma DrainKeepsRemaining(s: System, items: seq<Item>, faults: string -> Fault, retryAt: string, id: string)
    requires Current(s.rows, items) && id in s.rows
    ensures var t := DrainItems(s, items, faults, retryAt).system.rows;
            id in t && SameWork(s.rows[id], t[id]) && Remaining(t[id]) <= Remaining(s.rows[id])
  {
    var k := DrainStopsCleanly(s, items, faults, retryAt);
    StopsKeepsRemaining(s.rows, items, retryAt, DrainItems(s, items, faults, retryAt), k, id);
  }

  lemma StopsKeepsRemaining(before: Table, items: seq<Item>, retryAt: string, r: Attempt, k: nat, id: string)
    requires Current(before, items) && id in before && StopsAt(before, items, retryAt, r, k)
    ensures id in r.system.rows && SameWork(before[id], r.system.rows[id])
    ensures Remaining(r.system.rows[id]) <= Remaining(before[id])
  {
    var t := r.system.rows;
    assert id in t;
    if j: nat :| j <= k && j < |items| && Executable(items[j]) && items[j].id == id {
      assert items[j] == before[id];
      if j < k {
        assert t[id] == items[j].(status := Succeeded);
      } else {
        assert t[id] == items[j].(status := RetryWait, attempts := items[j].attempts + 1, next := retryAt);
      }
    } else {
      assert t[id] == before[id];
    }
  }

  lemma DrainSpares(s: System, items: seq<Item>, faults: string -> Fault, retryAt: string, id: string)
    requires Current(s.rows, items) && id in s.rows && !Executable(s.rows[id])
    ensures var t := DrainItems(s, items, faults, retryAt).system.rows; id in t && t[id] == s.rows[id]
  {
    var k := DrainStopsCleanly(s, items, faults, retryAt);
    forall j | 0 <= j < |items| && Executable(items[j]) ensures items[j].id != id {
      assert s.rows[items[j].id] == items[j];
    }
  }

  /** The later form of a row: the same work, no more of it left, and unchanged unless it was live. */
  ghost predicate Wears(before: Item, after: Item) {
    SameWork(before, after) && Remaining(after) <= Remaining(before) && (after == before || before.status.Live())
  }

  lemma DrainWears(task: string, before: Table, s: System, items: seq<Item>, faults: string -> Fault,
                   retryAt: string, id: string)
    requires Drains(task, before, s.rows, items) && id in before
    ensures var t := DrainItems(s, items, faults, retryAt).system.rows; id in t && Wears(before[id], t[id])
    ensures DrainItems(s, items, faults, retryAt).system.rows.Keys == s.rows.Keys
  {
    DrainKeepsRemaining(s, items, faults, retryAt, id);
    if !Executable(s.rows[id]) {
      DrainSpares(s, items, faults, retryAt, id);
    }
    var k := DrainStopsCleanly(s, items, faults, retryAt);
  }

  /** What is delivered for an item leaves the other rows and its own as drains and attempts do. */
  lemma DeliverWears(task: string, s: System, op: Item, d: Delivery, id: string)
    requires Deliverable(task, s, op, d) && op.id in s.rows && id in s.rows
    ensures var t := Deliver(s, op, d).system.rows;
            && id in t && SameWork(s.rows[id], t[id])
            && (id != op.id || Runs(d) ==> Wears(s.rows[id], t[id]))
  {
    match d
    case Reran(_, queued, items, faults, retryAt) =>
      DrainWears(task, s.rows, s.(rows := queued), items, faults, retryAt, id);
    case RanElsewhere(_, sides, index, queued, items, faults, retryAt) =>
      DrainWears(op.task, s.rows, System(sides, index, queued), items, faults, retryAt, id);
    case _ =>
  }

  /** One item of a tick that began with the rows of base: the copy of its row is from there. */
  lemma ItemWears(task: string, base: Table, s: System, op: Item, d: Delivery, later: nat -> string, id: string)
    requires Deliverable(task, s, op, d) && op.id in base && base[op.id] == op && op.status.Live()
    requires op.id in s.rows && SameWork(op, s.rows[op.id])
    requires id in base && id in s.rows && Wears(base[id], s.rows[id])
    ensures var t := TickItem(s, op, d, later).rows;
            && id in t && op.id in t && Wears(base[id], t[id])
            && (id == op.id ==> Remaining(t[id]) < Remaining(base[id]))
  {
    DeliverWears(task, s, op, d, id);
    DeliverWears(task, s, op, d, op.id);
  }

  /** Over a tick, items that run their task included, nothing gives a row any of its processings back, and
      each processing uses one up. */
  lemma {:induction false} TickWears(task: string, s: System, ops: seq<Item>, executed: set<string>,
                                     ds: seq<Delivery>, later: nat -> string, id: string)
    requires DueItems(s.rows, ops) && TickOk(task, s, ops, executed, ds, later) && id in s.rows
    ensures var t := TickItems(s, ops, executed, ds, later).rows;
            && id in t && Wears(s.rows[id], t[id])
            && (Processes(ops, executed, id) ==> Remaining(t[id]) < Remaining(s.rows[id]))
  {
    if ops != [] {
      var n := |ops| - 1;
      var op, front := ops[n], ops[..n];
      FrontDue(s.rows, ops);
      TickWears(task, s, front, executed, ds[..n], later, id);
      TickWears(task, s, front, executed, ds[..n], later, op.id);
      ProcessesLast(ops, executed, id);
      var s1 := TickItems(s, front, executed, ds[..n], later);
      if op.task !in executed {
        ItemWears(task, s.rows, s1, op, ds[n], later, id);
        if id != op.id {
          OthersSpend(task, s1, op, ds[n], later, id);
        }
      }
    }
  }

  // What another row has left does not grow either.
  lemma OthersSpend(task: string, s: System, op: Item, d: Delivery, later: nat -> string, id: string)
    requires Deliverable(task, s, op, d) && op.id in s.rows && id in s.rows && id != op.id
    ensures var t := TickItem(s, op, d, later).rows; id in t && Remaining(t[id]) <= Remaining(s.rows[id])
  {
    DeliverWears(task, s, op, d, id);
  }

  lemma StepUsesRemaining(task: string, s: System, step: Step, id: string)
    requires Enabled(task, s, step) && id in s.rows
    ensures var t := TakeStep(task, s, step).rows;
            && id in t && SameWork(s.rows[id], t[id]) && Remaining(t[id]) <= Remaining(s.rows[id])
            && (step.Tick? && Processes(step.ops, step.executed, id) ==> Remaining(t[id]) < Remaining(s.rows[id]))
  {
    match step
    case RunTask(queued, items, faults, retryAt) => DrainKeepsRemaining(s.(rows := queued), items, faults, retryAt, id);
    case Tick(ops, executed, ds, later) => TickWears(task, s, ops, executed, ds, later, id);
    case OtherTask(_, sides, index, queued, items, faults, retryAt) =>
      DrainKeepsRemaining(System(sides, index, queued), items, faults, retryAt, id);
    case _ =>
  }

  lemma FinishedStep(task: string, s: System, step: Step, id: string)
    requires Enabled(task, s, step) && id in s.rows && s.rows[id].status.Terminal()
    ensures id in TakeStep(task, s, step).rows && TakeStep(task, s, step).rows[id] == s.rows[id]
  {
    match step
    case RunTask(queued, items, faults, retryAt) =>
      DrainSpares(s.(rows := queued), items, faults, retryAt, id);
    case OtherTask(_, sides, index, queued, items, faults, retryAt) =>
      DrainSpares(System(sides, index, queued), items, faults, retryAt, id);
    case Tick(ops, executed, ds, later) => TickWears(task, s, ops, executed, ds, later, id);
    case _ =>
  }

  /** Marking a row succeeded or given up is final: no later drain, tick or manual retry changes it. Within one
      tick that is not so: an item that runs its task can end rows of which the tick holds older copies. */
  lemma {:induction false} FinishedStays(task: string, states: seq<System>, steps: seq<Step>, m: nat, n: nat,
                                         id: string)
    requires RunOf(task, states, steps) && m <= n <= |steps|
    requires id in states[m].rows && states[m].rows[id].status.Terminal()
    ensures id in states[n].rows && states[n].rows[id] == states[m].rows[id]
  {
    if m < n {
      FinishedStays(task, states, steps, m, n - 1, id);
      assert StepAt(task, states, steps, n - 1);
      FinishedStep(task, states[n - 1], steps[n - 1], id);
    }
  }

  /** Over any run of drains, ticks and manual retries, every processing by a queue half uses up some of
      what remains, and nothing gives it back. */
  lemma {:induction false} ProcessingsUseRemaining(task: string, states: seq<System>, steps: seq<Step>, n: nat,
                                                   id: string)
    requires RunOf(task, states, steps) && n <= |steps| && id in states[0].rows
    ensures id in states[n].rows
    ensures Processed(steps, n, id) + Remaining(states[n].rows[id]) <= Remaining(states[0].rows[id])
  {
    if n > 0 {
      ProcessingsUseRemaining(task, states, steps, n - 1, id);
      assert StepAt(task, states, steps, n - 1);
      StepUsesRemaining(task, states[n - 1], steps[n - 1], id);
    }
  }

  /** So the queue half never processes an item more than ten times, drains and manual retries in between
      included, and one that it processes ten times has ended. */
  lemma AtMostTenProcessings(task: string, states: seq<System>, steps: seq<Step>, id: string)
    requires RunOf(task, states, steps) && id in states[0].rows && states[0].rows[id].attempts >= 0
    ensures Processed(steps, |steps|, id) <= GIVE_UP
    ensures id in states[|steps|].rows
    ensures Processed(steps, |steps|, id) == GIVE_UP ==> states[|steps|].rows[id].status.Terminal()
  {
    ProcessingsUseRemaining(task, states, steps, |steps|, id);
  }

  // ---- the exact total delay ----------------------------------------------------------------------

  /** The row after k failed attempts by the scheduler, and the delays its reschedules asked for. */
  function FailedRow(item: Item, k: nat, later: nat -> nat -> string): Item
    requires k <= GIVE_UP
  {
    if k == 0 then item
    else
      var before := FailedRow(item, k - 1, later);
      if before.attempts + 1 >= GIVE_UP then before.(status := GaveUp)
      else before.(status := OrDefault(before.status), attempts := before.attempts + 1,
                   next := later(k - 1)(NextBackoff(before.attempts + 1)))
  }

  function TotalDelay(k: nat): nat {
    if k == 0 then 0 else TotalDelay(k - 1) + NextBackoff(k)
  }

  lemma {:induction false} FailedRowStep(s: System, item: Item, k: nat, d: Delivery, later: nat -> nat -> string)
    requires k < GIVE_UP && item.op.Sync? && item.status.Live() && item.attempts == 0
    requires item.id in s.rows && s.rows[item.id] == FailedRow(item, k, later)
    requires Fits(s.rows[item.id], d) && !Deliver(s, s.rows[item.id], d).ok
    ensures FailedRow(item, k, later).id == item.id && FailedRow(item, k, later).op == item.op
    ensures TickItem(s, s.rows[item.id], d, later(k)).rows[item.id] == FailedRow(item, k + 1, later)
    ensures k < 9 ==> FailedRow(item, k + 1, later).next == later(k)(NextBackoff(k + 1))
    ensures k == 9 ==> FailedRow(item, k + 1, later).status.GaveUp?
  {
    FailedRowShape(item, k, later);
  }

  lemma {:induction false} FailedRowShape(item: Item, k: nat, later: nat -> nat -> string)
    requires k <= GIVE_UP && item.status.Live() && item.attempts == 0
    ensures var r := FailedRow(item, k, later);
            && r.id == item.id && r.op == item.op
            && (k < GIVE_UP ==> r.attempts == k && r.status.Live())
            && (k == GIVE_UP ==> r.status.GaveUp?)
  {
    if k > 0 {
      FailedRowShape(item, k - 1, later);
    }
  }

  lemma {:induction false} DelaysAddUp(k: nat)
    requires k <= 9
    ensures TotalDelay(k) == Shift(k) - 1
  {
    if k > 0 {
      DelaysAddUp(k - 1);
      BackoffBounds(k, k);
    }
  }

  /** An item that keeps failing from attempt 0 waits 1 + 2 + ... + 256 = 511 seconds in all, over nine
      reschedules; the tenth failure gives it up. */
  lemma NineDelays()
    ensures TotalDelay(9) == 511
  {
    DelaysAddUp(9);
    ShiftEight();
  }

  // ---- the tick over the live objects -------------------------------------------------------------

  /** What one run of a task is given: the planning time as it stands in ids and rows, the time of the next
      attempt, what befalls the items, and the id of the row that asks to run the task again if it fails. */
  datatype RunInputs = RunInputs(stamp: string, created: string, retryAt: string, faults: string -> Fault,
                                 failureId: string)

  /** The row that asks for a failed task to be run again. */
  function BaselineRow(id: string, task: string, created: string): Item {
    Item(id, task, BaselineSync, 0, Queued, 0, "", created)
  }

  lemma DrainKeepsTable(s: System, items: seq<Item>, faults: string -> Fault, retryAt: string)
    requires Current(s.rows, items) && TableOk(s.rows)
    ensures TableOk(DrainItems(s, items, faults, retryAt).system.rows)
  {
    var t := DrainItems(s, items, faults, retryAt).system.rows;
    var k := DrainStopsCleanly(s, items, faults, retryAt);
    forall id | id in t ensures t[id].id == id {
      DrainKeepsRemaining(s, items, faults, retryAt, id);
    }
  }

  /** What a failed task leaves in the table: the rows it queued, if any, and the one that asks to run the task
      again. None of them has been attempted, and all are due at once. */
  ghost predicate AsksAgain(before: Table, after: Table, taskId: string, created: string, failureId: string) {
    && failureId in after
    && forall id :: id in after && id !in before ==>
         (after[id].op.Sync? || (id == failureId && after[id].op.BaselineSync?))
         && Unattempted(after[id], taskId, created)
  }

  lemma FailedTaskStep(task: Task, taskId: string, created: string, failureId: string, before: System, mid: Table,
                       after: Table)
    requires TableOk(mid) && Extends(before.rows, mid, taskId) && QueuesPlanned(task, before, mid)
    requires forall id :: id in mid && id !in before.rows ==> mid[id].op.Sync? && Unattempted(mid[id], taskId, created)
    requires after == if failureId in mid then mid else mid[failureId := BaselineRow(failureId, taskId, created)]
    ensures Drains(taskId, before.rows, after, []) && TableOk(after)
    ensures QueuesPlanned(task, before, after) && AsksAgain(before.rows, after, taskId, created, failureId)
  {
  }

  /** The table that was drained is the one found with a plan for the trees and the index enqueued. */
  ghost predicate PlannedRun(task: Task, taskId: string, run: RunInputs, before: System, queued: Table) {
    exists plan :: PlanOf(task, before.sides.local, before.sides.remote, before.index, plan)
      && Enqueued(before.rows, queued, taskId, run.stamp, run.created, plan, |plan|)
  }

  /** What a run that an item asked for came to. */
  ghost predicate RanAs(task: Task, taskId: string, run: RunInputs, before: System, d: Delivery) {
    d.Reran? ==>
      if d.ok then PlannedRun(task, taskId, run, before, d.queued)
      else d.items == [] && AsksAgain(before.rows, d.queued, taskId, run.created, run.failureId)
  }

  lemma DrainedTaskStep(task: Task, taskId: string, run: RunInputs, plan: seq<Action>, before: System, queued: Table,
                        items: seq<Item>)
    requires TableOk(queued) && PlanOf(task, before.sides.local, before.sides.remote, before.index, plan)
    requires Enqueued(before.rows, queued, taskId, run.stamp, run.created, plan, |plan|)
    requires Listing(queued, false, items)
    requires forall id :: Listed(items, id) <==> id in queued && queued[id].task == taskId
    ensures Drains(taskId, before.rows, queued, items) && QueuesPlanned(task, before, queued)
    ensures TableOk(DrainItems(before.(rows := queued), items, run.faults, run.retryAt).system.rows)
  {
    EnqueuedExtends(before.rows, queued, taskId, run.stamp, run.created, plan, |plan|);
    EnqueuedQueuesPlanned(task, before, queued, taskId, run.stamp, run.created, plan, |plan|);
    forall k | 0 <= k < |items| ensures items[k].task == taskId {
      assert Listed(items, items[k].id);
    }
    DrainKeepsTable(before.(rows := queued), items, run.faults, run.retryAt);
  }

  /** Running one task: a drain step. A task whose drain was stopped by a failure counts as executed; only
      planning and enqueueing can make it count as failed. Then nothing is drained, and a row is queued that
      asks for the task to be run again. */
  method TickTask(service: TaskService, task: Task, taskId: string, run: RunInputs)
    returns (ran: bool, ghost step: Step)
    requires TableOk(service.queue.rows)
    modifies service.runner, service.queue
    ensures step.RunTask? && Enabled(taskId, old(service.State()), step)
    ensures service.State() == TakeStep(taskId, old(service.State()), step)
    ensures TableOk(service.queue.rows) && QueuesPlanned(task, old(service.State()), step.queued)
    ensures ran ==> PlannedRun(task, taskId, run, old(service.State()), step.queued)
    ensures !ran ==> step.items == [] && step.queued == service.queue.rows
    ensures !ran ==> AsksAgain(old(service.queue.rows), service.queue.rows, taskId, run.created, run.failureId)
  {
    ghost var before := service.State();
    var result, plan, queued, items :=
      service.ExecutePlannedActions(task, taskId, run.stamp, run.created, run.retryAt, run.faults);
    ran := !result.Errored?;
    if ran {
      DrainedTaskStep(task, taskId, run, plan, before, queued, items);
      step := RunTask(queued, items, run.faults, run.retryAt);
    } else {
      ghost var mid := service.queue.rows;
      var _ := service.queue.Enqueue(BaselineRow(run.failureId, taskId, run.created));
      FailedTaskStep(task, taskId, run.created, run.failureId, before, mid, service.queue.rows);
      step := RunTask(service.queue.rows, [], run.faults, run.retryAt);
    }
  }

  /** The item asks to run this task, which can be resolved. */
  predicate RunsTask(taskId: string, op: Item, d: Delivery) {
    op.op.BaselineSync? && op.task == taskId && d.Resolved?
  }

  /** The outcome of an item that does not run this task. */
  function Given(taskId: string, op: Item, d: Delivery): Delivery {
    if op.op.Sync? && (if op.task == taskId then d.Resolved? else d.Elsewhere?) then d else Unresolved
  }

  /** What comes of an item, given the outcome that awaits it: a request to run this task runs it and an action
      of this task is attempted if the task can be resolved, an action of another task is attempted there, and
      whatever else there is cannot be resolved. */
  ghost predicate Meets(taskId: string, op: Item, d: Delivery, given: Delivery) {
    match op.op
    case BaselineSync => if op.task == taskId && d.Resolved? then given.Reran? else given.Unresolved?
    case Sync(_) =>
      if (op.task == taskId && d.Resolved?) || (op.task != taskId && d.Elsewhere?) then given == d
      else given.Unresolved?
  }

  method Mark(service: TaskService, op: Item, ok: bool, later: nat -> string)
    modifies service.queue
    ensures service.queue.rows == Marked(old(service.queue.rows), op, ok, later)
  {
    if ok {
      var _ := service.queue.Dequeue(op.id);
    } else if op.attempts + 1 >= GIVE_UP {
      var _ := service.queue.MarkFailed(op.id);
    } else {
      var next := later(NextBackoff(op.attempts + 1));
      var _ := service.queue.RescheduleItem(op.(attempts := op.attempts + 1, next := next));
    }
  }

  /** The attempt at one due item, or the run it asks for, if its task can be resolved. */
  method DeliverOne(service: TaskService, task: Task, taskId: string, op: Item, d: Delivery, run: RunInputs)
    returns (ok: bool, ghost given: Delivery)
    requires TableOk(service.queue.rows)
    modifies service.runner, service.queue
    ensures Meets(taskId, op, d, given)
    ensures given.Reran? ==> QueuesPlanned(task, old(service.State()), given.queued)
    ensures RanAs(task, taskId, run, old(service.State()), given)
    ensures Deliverable(taskId, old(service.State()), op, given)
    ensures Attempt(service.State(), ok) == Deliver(old(service.State()), op, given)
    ensures TableOk(service.queue.rows)
  {
    given := Given(taskId, op, d);
    ok := false;
    if RunsTask(taskId, op, d) {
      ghost var step;
      ok, step := TickTask(service, task, taskId, run);
      given := Reran(ok, step.queued, step.items, step.faults, step.retryAt);
    } else if op.op.Sync? && op.task == taskId && d.Resolved? {
      ok := service.ExecuteQueueOperation(op, op.op.action, d.fault);
    } else if op.op.Sync? && op.task != taskId && d.Elsewhere? {
      ok := d.ok;
    }
  }

  /** One due item: attempted or run, then finished, given up or rescheduled. */
  method TickOne(service: TaskService, task: Task, taskId: string, op: Item, d: Delivery, run: RunInputs,
                 later: nat -> string)
    returns (ghost given: Delivery)
    requires TableOk(service.queue.rows)
    modifies service.runner, service.queue
    ensures Meets(taskId, op, d, given)
    ensures given.Reran? ==> QueuesPlanned(task, old(service.State()), given.queued)
    ensures RanAs(task, taskId, run, old(service.State()), given)
    ensures Deliverable(taskId, old(service.State()), op, given)
    ensures service.State() == TickItem(old(service.State()), op, given, later)
    ensures TableOk(service.queue.rows)
  {
    var ok;
    ok, given := DeliverOne(service, task, taskId, op, d, run);
    Mark(service, op, ok, later);
  }

  /** What the items that run the task queue is planned for the trees and the index they find. */
  ghost predicate TickPlans(t: Task, s: System, ops: seq<Item>, executed: set<string>, ds: seq<Delivery>,
                            later: nat -> string)
    requires AllFit(ops, ds)
  {
    ops == [] ||
    var n := |ops| - 1;
    && TickPlans(t, s, ops[..n], executed, ds[..n], later)
    && (ops[n].task !in executed && ds[n].Reran? ==>
          QueuesPlanned(t, TickItems(s, ops[..n], executed, ds[..n], later), ds[n].queued))
  }

  lemma TickNext(t: Task, task: string, s: System, ops: seq<Item>, k: nat, executed: set<string>, ds: seq<Delivery>,
                 d: Delivery, later: nat -> string)
    requires k < |ops| && TickOk(task, s, ops[..k], executed, ds, later)
    requires TickPlans(t, s, ops[..k], executed, ds, later)
    requires var s1 := TickItems(s, ops[..k], executed, ds, later);
             if ops[k].task in executed then Fits(ops[k], d)
             else Deliverable(task, s1, ops[k], d) && (d.Reran? ==> QueuesPlanned(t, s1, d.queued))
    ensures TickOk(task, s, ops[..k + 1], executed, ds + [d], later)
    ensures TickPlans(t, s, ops[..k + 1], executed, ds + [d], later)
    ensures TickItems(s, ops[..k + 1], executed, ds + [d], later) ==
            var s1 := TickItems(s, ops[..k], executed, ds, later);
            if ops[k].task in executed then s1 else TickItem(s1, ops[k], d, later)
  {
    assert ops[..k + 1][..k] == ops[..k] && (ds + [d])[..k] == ds && ops[..k + 1][k] == ops[k];
    assert AllFit(ops[..k + 1], ds + [d]);
  }

  /** What became of the listed items: each runs this task, or meets its given outcome. */
  ghost predicate AsGiven(taskId: string, ops: seq<Item>, executed: set<string>, ds: seq<Delivery>,
                          d: string -> Delivery)
    requires |ds| <= |ops|
  {
    forall k :: 0 <= k < |ds| && ops[k].task !in executed ==>
      Meets(taskId, ops[k], d(ops[k].id), ds[k])
  }

  /** A tick's queue half from s to t. */
  ghost predicate Ticked(t: Task, taskId: string, s: System, ops: seq<Item>, executed: set<string>,
                         ds: seq<Delivery>, later: nat -> string, end: System)
  {
    && TickOk(taskId, s, ops, executed, ds, later) && TickPlans(t, s, ops, executed, ds, later)
    && end == TickItems(s, ops, executed, ds, later)
  }

  lemma TickedNext(t: Task, taskId: string, s: System, ops: seq<Item>, k: nat, executed: set<string>,
                   ds: seq<Delivery>, given: Delivery, later: nat -> string, mid: System, end: System)
    requires k < |ops| && Ticked(t, taskId, s, ops[..k], executed, ds, later, mid)
    requires if ops[k].task in executed then given == Unresolved && end == mid
             else Deliverable(taskId, mid, ops[k], given) && (given.Reran? ==> QueuesPlanned(t, mid, given.queued))
                  && end == TickItem(mid, ops[k], given, later)
    ensures Ticked(t, taskId, s, ops[..k + 1], executed, ds + [given], later, end)
  {
    TickNext(t, taskId, s, ops, k, executed, ds, given, later);
  }

  lemma AsGivenNext(taskId: string, ops: seq<Item>, executed: set<string>, ds: seq<Delivery>, given: Delivery,
                    d: string -> Delivery)
    requires |ds| < |ops| && AsGiven(taskId, ops, executed, ds, d)
    requires var op := ops[|ds|];
             op.task !in executed ==> Meets(taskId, op, d(op.id), given)
    ensures AsGiven(taskId, ops, executed, ds + [given], d)
  {
  }

  /** The loop over the listed items. */
  method TickListed(service: TaskService, task: Task, taskId: string, ops: seq<Item>, executed: set<string>,
                    d: string -> Delivery, runs: string -> RunInputs, later: nat -> string)
    returns (ghost ds: seq<Delivery>)
    requires TableOk(service.queue.rows)
    modifies service.runner, service.queue
    ensures |ds| == |ops| && AsGiven(taskId, ops, executed, ds, d)
    ensures Ticked(task, taskId, old(service.State()), ops, executed, ds, later, service.State())
  {
    ds := [];
    ghost var s := service.State();
    var k := 0;
    while k < |ops|
      invariant 0 <= k <= |ops| && |ds| == k && TableOk(service.queue.rows)
      invariant Ticked(task, taskId, s, ops[..k], executed, ds, later, service.State())
      invariant AsGiven(taskId, ops, executed, ds, d)
    {
      var op := ops[k];
      ghost var given, mid := Unresolved, service.State();
      if op.task !in executed {
        given := TickOne(service, task, taskId, op, d(op.id), runs(op.id), later);
      }
      TickedNext(task, taskId, s, ops, k, executed, ds, given, later, mid, service.State());
      AsGivenNext(taskId, ops, executed, ds, given, d);
      ds := ds + [given];
      k := k + 1;
    }
    assert ops[..k] == ops;
  }

  /** The queue half. The tasks that ran in the tick's first half are given. An item of this task that asks to
      run it does so, if the task can be resolved; the copies of the items after it stay as they were listed. */
  method TickQueue(service: TaskService, task: Task, taskId: string, now: string, executed: set<string>,
                   d: string -> Delivery, runs: string -> RunInputs, later: nat -> string)
    returns (ops: seq<Item>, ghost ds: seq<Delivery>)
    requires TableOk(service.queue.rows)
    modifies service.runner, service.queue
    ensures DueItems(old(service.queue.rows), ops) && Listing(old(service.queue.rows), true, ops) && |ops| <= 64
    ensures |ds| == |ops| && AsGiven(taskId, ops, executed, ds, d)
    ensures Ticked(task, taskId, old(service.State()), ops, executed, ds, later, service.State())
  {
    ops := service.queue.ListDue(now, 64);
    ds := TickListed(service, task, taskId, ops, executed, d, runs, later);
  }

  /** The first half for one task, if it is to run. It counts as executed unless its run failed. */
  method TickFirst(service: TaskService, task: Task, taskId: string, run: RunInputs, shouldRun: bool,
                   others: set<string>)
    returns (executed: set<string>, ghost states: seq<System>, ghost steps: seq<Step>)
    requires TableOk(service.queue.rows)
    modifies service.runner, service.queue
    ensures |steps| == (if shouldRun then 1 else 0) && RunOf(taskId, states, steps)
    ensures states[0] == old(service.State()) && states[|steps|] == service.State()
    ensures TableOk(service.queue.rows)
    ensures shouldRun ==> steps[0].RunTask? && QueuesPlanned(task, states[0], steps[0].queued)
    ensures executed == others || (shouldRun && executed == others + {taskId})
    ensures shouldRun && steps[0].items != [] ==> taskId in executed
    ensures shouldRun && taskId !in executed ==>
              AsksAgain(old(service.queue.rows), service.queue.rows, taskId, run.created, run.failureId)
  {
    executed := others;
    states, steps := [service.State()], [];
    if shouldRun {
      var ran, step := TickTask(service, task, taskId, run);
      if ran {
        executed := executed + {taskId};
      }
      RunGoesOn(taskId, states, steps, step, service.State());
      states, steps := states + [service.State()], steps + [step];
    }
  }

  /** A whole tick for one task: its drain if it is to run, then the due items of all other tasks and, unless
      the drain counted as executed, its own. It is a drain step, if any, followed by a queue step. */
  method TickBoth(service: TaskService, task: Task, taskId: string, run: RunInputs, shouldRun: bool,
                  others: set<string>, now: string, d: string -> Delivery, runs: string -> RunInputs,
                  later: nat -> string)
    returns (ops: seq<Item>, executed: set<string>, ghost ds: seq<Delivery>, ghost states: seq<System>,
             ghost steps: seq<Step>)
    requires TableOk(service.queue.rows)
    modifies service.runner, service.queue
    ensures |states| == |steps| + 1 && states[0] == old(service.State()) && states[|steps|] == service.State()
    ensures |steps| == if shouldRun then 2 else 1
    ensures RunOf(taskId, states, steps)
    ensures shouldRun ==> steps[0].RunTask? && QueuesPlanned(task, states[0], steps[0].queued)
    ensures steps[|steps| - 1] == Tick(ops, executed, ds, later) && |ops| <= 64 && AllFit(ops, ds)
    ensures TickPlans(task, states[|steps| - 1], ops, executed, ds, later)
    ensures executed == others || (shouldRun && executed == others + {taskId})
    ensures shouldRun && steps[0].items != [] ==> taskId in executed
    ensures shouldRun && taskId !in executed ==>
              AsksAgain(old(service.queue.rows), states[1].rows, taskId, run.created, run.failureId)
  {
    executed, states, steps := TickFirst(service, task, taskId, run, shouldRun, others);
    ops, ds := TickQueue(service, task, taskId, now, executed, d, runs, later);
    RunGoesOn(taskId, states, steps, Tick(ops, executed, ds, later), service.State());
    states, steps := states + [service.State()], steps + [Tick(ops, executed, ds, later)];
  }
}
