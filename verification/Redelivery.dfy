/** At-least-once delivery by a service that plans again at every drain: once the rows of the first plan have
    succeeded, whatever else was planned, retried, skipped or lost, both sides are that plan's target. */
module Redelivery {
  import opened Trees
  import opened Actions
  import opened FileIndex
  import opened Planner
  import opened PlanLoops
  import opened Convergence
  import opened OperationQueue
  import opened Execution
  import opened Drain
  import opened FreshQueue
  import opened Retries
  import opened Scheduler
  import opened AtLeastOnce
  import opened Replans

  /** Whatever runs the task queues actions of plans for the trees and the index it finds. */
  ghost predicate PlansAgain(t: Task, task: string, s: System, step: Step)
    requires Enabled(task, s, step)
  {
    match step
    case RunTask(queued, _, _, _) => QueuesPlanned(t, s, queued)
    case Tick(ops, executed, ds, later) => TickPlans(t, s, ops, executed, ds, later)
    case _ => true
  }

  /** The rows of base are still there, and the task's action rows among them are final. */
  ghost predicate Closed(task: string, base: Table, rows: Table) {
    forall id :: id in base ==>
      && id in rows && SameWork(base[id], rows[id])
      && (base[id].task == task && base[id].op.Sync? ==> base[id].status.Terminal() && rows[id] == base[id])
  }

  lemma LiveIsNew(task: string, base: Table, rows: Table, id: string)
    requires Closed(task, base, rows) && id in rows && rows[id].task == task && Executable(rows[id])
    ensures id !in base
  {
  }

  lemma ClosedFurther(task: string, base: Table, rows: Table, after: Table)
    requires Closed(task, base, rows)
    requires forall id :: id in rows ==>
               id in after && SameWork(rows[id], after[id]) && (rows[id].status.Terminal() ==> after[id] == rows[id])
    ensures Closed(task, base, after)
  {
  }

  /** The actions of the rows added to base are allowed. */
  ghost predicate RowsAllowed(task: string, o: Origin, base: Table, s: System) {
    forall id :: id in s.rows && id !in base && s.rows[id].task == task && s.rows[id].op.Sync? ==>
      Allowed(o, StoreOf(s), s.rows[id].op.action)
  }

  /** What holds after every transition: the attempts so far led here, and nothing else waits. */
  ghost predicate OnTrack(task: string, o: Origin, base: Table, s: System, tries: seq<Try>) {
    && StoreOf(s) == After(o, tries) && Faithful(o, tries)
    && Closed(task, base, s.rows) && RowsAllowed(task, o, base, s)
  }

  ghost predicate TwoWay(t: Task, o: Origin) {
    Plain(o) && o.task == t && t.direction == Bidirectional
  }

  lemma AllowedStays(o: Origin, tries: seq<Try>, more: seq<Try>, a: Action)
    requires o.Good() && Allowed(o, After(o, tries), a) && Faithful(o, tries + more)
    ensures Allowed(o, After(o, tries + more), a)
  {
    if a !in o.plan {
      forall t | t in more ensures o.Permits(t.action) { assert t in tries + more; }
      KeptDirStays(o, tries, more, a.path);
    }
  }

  /** Attempts at allowed actions stay on track, if the rows added are allowed and none of base changes. */
  lemma TrackFurther(task: string, o: Origin, base: Table, s: System, tries: seq<Try>, u: System, more: seq<Try>)
    requires o.Good() && OnTrack(task, o, base, s, tries) && StoreOf(u) == AfterTries(StoreOf(s), more)
    requires Closed(task, base, u.rows) && forall x :: x in more ==> Allowed(o, StoreOf(s), x.action)
    requires forall id :: id in u.rows && id !in base && u.rows[id].task == task && u.rows[id].op.Sync? ==>
               Allowed(o, StoreOf(s), u.rows[id].op.action)
    ensures OnTrack(task, o, base, u, tries + more)
  {
    FaithfulFurther(o, tries, more);
    AfterBoth(Begin(o), tries, more);
    forall id | id in u.rows && id !in base && u.rows[id].task == task && u.rows[id].op.Sync?
      ensures Allowed(o, StoreOf(u), u.rows[id].op.action)
    {
      AllowedStays(o, tries, more, u.rows[id].op.action);
    }
  }

  /** The rows the task's drain goes through are allowed, those of a new plan included. */
  lemma QueuedAllowed(t: Task, task: string, o: Origin, base: Table, s: System, tries: seq<Try>, queued: Table,
                      id: string)
    requires TwoWay(t, o) && OnTrack(task, o, base, s, tries) && InTime(o, tries)
    requires Extends(s.rows, queued, task) && QueuesPlanned(t, s, queued)
    requires id in queued && id !in base && queued[id].task == task && queued[id].op.Sync?
    ensures Allowed(o, StoreOf(s), queued[id].op.action)
  {
    if id !in s.rows {
      assert PlannedFrom(t, s, queued[id].op.action);
      var again :| PlanOf(t, s.sides.local, s.sides.remote, s.index, again) && queued[id].op.action in again;
      PlannedAgainIsAllowed(o, tries, again, queued[id].op.action);
    }
  }

  /** A drain changes the rows it can execute only, in their retry columns. */
  ghost predicate DrainedRows(queued: Table, rows: Table) {
    && rows.Keys == queued.Keys
    && forall id :: id in queued ==>
         SameWork(queued[id], rows[id]) && (Executable(queued[id]) || rows[id] == queued[id])
  }

  lemma DrainRows(s: System, items: seq<Item>, faults: string -> Fault, retryAt: string)
    requires Current(s.rows, items)
    ensures DrainedRows(s.rows, DrainItems(s, items, faults, retryAt).system.rows)
  {
    var k := DrainStopsCleanly(s, items, faults, retryAt);
    var rows := DrainItems(s, items, faults, retryAt).system.rows;
    forall id | id in s.rows
      ensures SameWork(s.rows[id], rows[id]) && (Executable(s.rows[id]) || rows[id] == s.rows[id])
    {
      DrainKeepsRemaining(s, items, faults, retryAt, id);
      if !Executable(s.rows[id]) { DrainSpares(s, items, faults, retryAt, id); }
    }
  }

  /** A drain attempts rows of the task that base does not have. */
  lemma TryFromQueued(task: string, base: Table, s: System, queued: Table, items: seq<Item>, faults: string -> Fault,
                      retryAt: string, x: Try) returns (id: string)
    requires Drains(task, s.rows, queued, items) && Closed(task, base, s.rows)
    requires x in DrainTries(s.(rows := queued), items, faults)
    ensures id in queued && id !in base && queued[id].task == task && queued[id].op == Sync(x.action)
  {
    var item := DrainTryCarried(s.(rows := queued), items, faults, retryAt, x);
    id := item.id;
    if id in s.rows {
      LiveIsNew(task, base, s.rows, id);
    }
  }

  lemma DrainOnTrack(t: Task, task: string, o: Origin, base: Table, s: System, tries: seq<Try>, queued: Table,
                     items: seq<Item>, faults: string -> Fault, retryAt: string)
    requires TwoWay(t, o) && OnTrack(task, o, base, s, tries) && InTime(o, tries)
    requires Drains(task, s.rows, queued, items) && QueuesPlanned(t, s, queued)
    ensures OnTrack(task, o, base, DrainItems(s.(rows := queued), items, faults, retryAt).system,
                    tries + DrainTries(s.(rows := queued), items, faults))
  {
    var s1 := s.(rows := queued);
    var u, more := DrainItems(s1, items, faults, retryAt).system, DrainTries(s1, items, faults);
    DrainRows(s1, items, faults, retryAt);
    forall id | id in u.rows && id !in base && u.rows[id].task == task && u.rows[id].op.Sync?
      ensures Allowed(o, StoreOf(s), u.rows[id].op.action)
    {
      QueuedAllowed(t, task, o, base, s, tries, queued, id);
    }
    forall x | x in more ensures Allowed(o, StoreOf(s), x.action) {
      var id := TryFromQueued(task, base, s, queued, items, faults, retryAt, x);
      QueuedAllowed(t, task, o, base, s, tries, queued, id);
    }
    assert StoreOf(u) == AfterTries(StoreOf(s), more) by { DrainTried(s1, items, faults, retryAt); }
    TrackFurther(task, o, base, s, tries, u, more);
  }

  lemma RerunRow(task: string, s: System, op: Item, d: Delivery)
    requires Deliverable(task, s, op, d) && d.Reran? && op.id in s.rows && SameWork(op, s.rows[op.id])
    ensures var rows := Deliver(s, op, d).system.rows; op.id in rows && !rows[op.id].op.Sync?
  {
    DrainRows(s.(rows := d.queued), d.items, d.faults, d.retryAt);
    assert d.queued[op.id] == s.rows[op.id];
  }

  lemma RerunOnTrack(t: Task, task: string, o: Origin, base: Table, s: System, tries: seq<Try>, op: Item, d: Delivery,
                     later: nat -> string)
    requires TwoWay(t, o) && OnTrack(task, o, base, s, tries) && InTime(o, tries)
    requires Deliverable(task, s, op, d) && d.Reran? && QueuesPlanned(t, s, d.queued)
    requires op.id in s.rows && SameWork(op, s.rows[op.id])
    ensures OnTrack(task, o, base, TickItem(s, op, d, later), tries + ItemTries(s, op, d))
  {
    DrainOnTrack(t, task, o, base, s, tries, d.queued, d.items, d.faults, d.retryAt);
    RerunRow(task, s, op, d);
    TickItemMarks(s, op, d, later);
    MarkedOnTrack(task, o, base, Deliver(s, op, d).system, tries + ItemTries(s, op, d), TickItem(s, op, d, later),
                  op.id);
  }

  lemma ResolvedOnTrack(task: string, o: Origin, base: Table, listed: Table, s: System, tries: seq<Try>, op: Item,
                        fault: Fault, later: nat -> string)
    requires o.Good() && OnTrack(task, o, base, s, tries) && Closed(task, base, listed)
    requires ItemReady(task, listed, s, op, Resolved(fault))
    ensures OnTrack(task, o, base, TickItem(s, op, Resolved(fault), later), tries + ItemTries(s, op, Resolved(fault)))
  {
    LiveIsNew(task, base, listed, op.id);
    ResolvedRows(s, op, fault, later);
    TrackFurther(task, o, base, s, tries, TickItem(s, op, Resolved(fault), later), ItemTries(s, op, Resolved(fault)));
  }

  /** One item of a tick. */
  lemma ItemOnTrack(t: Task, task: string, o: Origin, base: Table, listed: Table, s: System, tries: seq<Try>, op: Item,
                    d: Delivery, later: nat -> string)
    requires TwoWay(t, o) && OnTrack(task, o, base, s, tries) && InTime(o, tries)
    requires ItemReady(task, listed, s, op, d) && Closed(task, base, listed)
    requires d.Reran? ==> QueuesPlanned(t, s, d.queued)
    ensures OnTrack(task, o, base, TickItem(s, op, d, later), tries + ItemTries(s, op, d))
  {
    match d {
      case Reran(_, _, _, _, _) => RerunOnTrack(t, task, o, base, s, tries, op, d, later);
      case Resolved(fault) => ResolvedOnTrack(task, o, base, listed, s, tries, op, fault, later);
      case RanElsewhere(_, sides, index, queued, items, faults, retryAt) =>
        OthersSpared(task, op.task, s.rows, queued, sides, index, items, faults, retryAt);
        OthersOnTrack(task, o, base, listed, s, tries, op, d, later);
      case _ => OthersOnTrack(task, o, base, listed, s, tries, op, d, later);
    }
  }

  lemma OthersOnTrack(task: string, o: Origin, base: Table, listed: Table, s: System, tries: seq<Try>, op: Item,
                      d: Delivery, later: nat -> string)
    requires o.Good() && OnTrack(task, o, base, s, tries) && ItemReady(task, listed, s, op, d)
    requires Closed(task, base, listed) && !d.Reran? && !d.Resolved?
    requires OthersOnly(task, s.rows, Deliver(s, op, d).system.rows)
    ensures OnTrack(task, o, base, TickItem(s, op, d, later), tries + ItemTries(s, op, d))
  {
    var r, u := Deliver(s, op, d).system, TickItem(s, op, d, later);
    TickItemMarks(s, op, d, later);
    if op.task == task && op.op.Sync? {
      LiveIsNew(task, base, listed, op.id);
    }
    OthersClosed(task, base, s.rows, r.rows, u.rows, op);
    NoTries(task, o, base, s, tries, u);
  }

  lemma OthersClosed(task: string, base: Table, rows: Table, mid: Table, after: Table, op: Item)
    requires Closed(task, base, rows) && OthersOnly(task, rows, mid) && after.Keys == mid.Keys
    requires forall id :: id in mid && id != op.id ==> after[id] == mid[id]
    requires op.id in mid ==> SameWork(mid[op.id], after[op.id])
    requires op.id in rows && SameWork(op, rows[op.id]) && (op.task == task && op.op.Sync? ==> op.id !in base)
    ensures Closed(task, base, after)
    ensures forall id :: id in after && after[id].task == task && after[id].op.Sync? ==>
              id in rows && SameWork(rows[id], after[id])
  {
  }

  lemma NoTries(task: string, o: Origin, base: Table, s: System, tries: seq<Try>, u: System)
    requires o.Good() && OnTrack(task, o, base, s, tries) && StoreOf(u) == StoreOf(s) && Closed(task, base, u.rows)
    requires forall id :: id in u.rows && u.rows[id].task == task && u.rows[id].op.Sync? ==>
               id in s.rows && SameWork(s.rows[id], u.rows[id])
    ensures OnTrack(task, o, base, u, tries + [])
  {
    assert tries + [] == tries;
  }

  /** Marking a row that is no action's. */
  lemma MarkedOnTrack(task: string, o: Origin, base: Table, s: System, tries: seq<Try>, u: System, marked: string)
    requires o.Good() && OnTrack(task, o, base, s, tries) && StoreOf(u) == StoreOf(s)
    requires u.rows.Keys == s.rows.Keys && forall id :: id in s.rows && id != marked ==> u.rows[id] == s.rows[id]
    requires marked in s.rows ==> !s.rows[marked].op.Sync? && SameWork(s.rows[marked], u.rows[marked])
    ensures OnTrack(task, o, base, u, tries)
  {
  }

  lemma {:induction false} TickOnTrack(t: Task, task: string, o: Origin, base: Table, s: System, tries: seq<Try>,
                                       ops: seq<Item>, executed: set<string>, ds: seq<Delivery>, later: nat -> string)
    requires TwoWay(t, o) && OnTrack(task, o, base, s, tries)
    requires DueItems(s.rows, ops) && TickOk(task, s, ops, executed, ds, later)
    requires TickPlans(t, s, ops, executed, ds, later)
    requires InTime(o, tries + TickTries(s, ops, executed, ds, later))
    ensures OnTrack(task, o, base, TickItems(s, ops, executed, ds, later),
                    tries + TickTries(s, ops, executed, ds, later))
  {
    if ops == [] {
      assert tries + [] == tries;
    } else {
      var n := |ops| - 1;
      var more := TickTries(s, ops[..n], executed, ds[..n], later);
      TriesOfLast(s, tries, ops, executed, ds, later);
      InTimeBefore(o, tries + more, LastTries(s, ops, executed, ds, later));
      FrontDue(s.rows, ops);
      TickOnTrack(t, task, o, base, s, tries, ops[..n], executed, ds[..n], later);
      if ops[n].task !in executed {
        LastReady(task, s, ops, executed, ds, later);
        ItemOnTrack(t, task, o, base, s.rows, TickItems(s, ops[..n], executed, ds[..n], later), tries + more,
                    ops[n], ds[n], later);
      }
    }
  }

  function LastTries(s: System, ops: seq<Item>, executed: set<string>, ds: seq<Delivery>,
                     later: nat -> string): seq<Try>
    requires AllFit(ops, ds) && ops != []
  {
    var n := |ops| - 1;
    if ops[n].task in executed then []
    else ItemTries(TickItems(s, ops[..n], executed, ds[..n], later), ops[n], ds[n])
  }

  lemma TriesOfLast(s: System, tries: seq<Try>, ops: seq<Item>, executed: set<string>, ds: seq<Delivery>,
                    later: nat -> string)
    requires AllFit(ops, ds) && ops != []
    ensures var n := |ops| - 1;
            var more, last := TickTries(s, ops[..n], executed, ds[..n], later), LastTries(s, ops, executed, ds, later);
            && tries + TickTries(s, ops, executed, ds, later) == (tries + more) + last
            && (last == [] ==> tries + TickTries(s, ops, executed, ds, later) == tries + more)
  {
  }

  lemma LastReady(task: string, s: System, ops: seq<Item>, executed: set<string>, ds: seq<Delivery>,
                  later: nat -> string)
    requires DueItems(s.rows, ops) && TickOk(task, s, ops, executed, ds, later) && ops != []
    requires ops[|ops| - 1].task !in executed
    ensures var n := |ops| - 1;
            ItemReady(task, s.rows, TickItems(s, ops[..n], executed, ds[..n], later), ops[n], ds[n])
  {
    var n := |ops| - 1;
    FrontDue(s.rows, ops);
    forall id | id in s.rows
      ensures var s1 := TickItems(s, ops[..n], executed, ds[..n], later);
              id in s1.rows && Wears(s.rows[id], s1.rows[id])
    {
      TickWears(task, s, ops[..n], executed, ds[..n], later, id);
    }
  }

  lemma StepOnTrack(t: Task, task: string, o: Origin, base: Table, s: System, tries: seq<Try>, step: Step)
    requires TwoWay(t, o) && OnTrack(task, o, base, s, tries)
    requires Enabled(task, s, step) && PlansAgain(t, task, s, step) && InTime(o, tries + StepTries(task, s, step))
    ensures OnTrack(task, o, base, TakeStep(task, s, step), tries + StepTries(task, s, step))
  {
    InTimeBefore(o, tries, StepTries(task, s, step));
    match step {
      case RunTask(queued, items, faults, retryAt) =>
        DrainOnTrack(t, task, o, base, s, tries, queued, items, faults, retryAt);
      case Tick(ops, executed, ds, later) => TickOnTrack(t, task, o, base, s, tries, ops, executed, ds, later);
      case OtherTask(other, sides, index, queued, items, faults, retryAt) =>
        OthersSpared(task, other, s.rows, queued, sides, index, items, faults, retryAt);
        NoTries(task, o, base, s, tries, TakeStep(task, s, step));
      case _ => NoTries(task, o, base, s, tries, TakeStep(task, s, step));
    }
  }

  /** Every step of the run plans for what it finds. */
  ghost predicate AllPlanAgain(t: Task, task: string, states: seq<System>, steps: seq<Step>)
    requires RunOf(task, states, steps)
  {
    forall k :: 0 <= k < |steps| ==> PlansAt(t, task, states, steps, k)
  }

  ghost predicate PlansAt(t: Task, task: string, states: seq<System>, steps: seq<Step>, k: nat)
    requires |states| == |steps| + 1 && k < |steps|
  {
    StepAt(task, states, steps, k) && PlansAgain(t, task, states[k], steps[k])
  }

  lemma LastStep(t: Task, task: string, states: seq<System>, steps: seq<Step>, n: nat)
    requires RunOf(task, states, steps) && AllPlanAgain(t, task, states, steps) && 0 < n <= |steps|
    ensures var s, step := states[n - 1], steps[n - 1];
            && Enabled(task, s, step) && PlansAgain(t, task, s, step) && states[n] == TakeStep(task, s, step)
            && RunTries(task, states, steps, n) == RunTries(task, states, steps, n - 1) + StepTries(task, s, step)
  {
    assert PlansAt(t, task, states, steps, n - 1);
  }

  lemma NextOnTrack(t: Task, task: string, o: Origin, base: Table, states: seq<System>, steps: seq<Step>, n: nat)
    requires TwoWay(t, o) && RunOf(task, states, steps) && AllPlanAgain(t, task, states, steps) && 0 < n <= |steps|
    requires OnTrack(task, o, base, states[n - 1], RunTries(task, states, steps, n - 1))
    requires InTime(o, RunTries(task, states, steps, n))
    ensures OnTrack(task, o, base, states[n], RunTries(task, states, steps, n))
  {
    LastStep(t, task, states, steps, n);
    StepOnTrack(t, task, o, base, states[n - 1], RunTries(task, states, steps, n - 1), steps[n - 1]);
  }

  lemma RunInTimeBefore(t: Task, task: string, o: Origin, states: seq<System>, steps: seq<Step>, n: nat)
    requires RunOf(task, states, steps) && AllPlanAgain(t, task, states, steps) && 0 < n <= |steps|
    requires InTime(o, RunTries(task, states, steps, n))
    ensures InTime(o, RunTries(task, states, steps, n - 1))
  {
    LastStep(t, task, states, steps, n);
    InTimeBefore(o, RunTries(task, states, steps, n - 1), StepTries(task, states[n - 1], steps[n - 1]));
  }

  lemma {:induction false} RunOnTrack(t: Task, task: string, o: Origin, base: Table, states: seq<System>,
                                      steps: seq<Step>, n: nat)
    requires TwoWay(t, o) && RunOf(task, states, steps) && AllPlanAgain(t, task, states, steps) && n <= |steps|
    requires OnTrack(task, o, base, states[0], [])
    requires InTime(o, RunTries(task, states, steps, n))
    ensures OnTrack(task, o, base, states[n], RunTries(task, states, steps, n))
    decreases n
  {
    if n > 0 {
      RunInTimeBefore(t, task, o, states, steps, n);
      RunOnTrack(t, task, o, base, states, steps, n - 1);
      NextOnTrack(t, task, o, base, states, steps, n);
    }
  }

  /** Every action row of the task has ended. */
  predicate NothingOpen(task: string, rows: Table) {
    forall id :: id in rows && rows[id].task == task && rows[id].op.Sync? ==> rows[id].status.Terminal()
  }

  /** The service has nothing of the task left over, plans, and queues the plan's rows. */
  ghost predicate Starts(t: Task, task: string, stamp: string, created: string, plan: seq<Action>,
                         s: System, step: Step) {
    && NothingOpen(task, s.rows)
    && t.direction == Bidirectional && BidirectionalPlan(t, s.sides.local, s.sides.remote, s.index, plan)
    && step.RunTask? && Enqueued(s.rows, step.queued, task, stamp, created, plan, |plan|)
  }

  /** From plain trees, in any run in which everything that plans plans for what it finds, with any faults: once
      the first plan's rows have succeeded, and no delete was performed before a move out of the directory it
      deletes, both sides are that plan's target, provided the risks of skipped retries are harmless. */
  lemma RedeliveryReachesTarget(t: Task, task: string, stamp: string, created: string, plan: seq<Action>,
                                states: seq<System>, steps: seq<Step>)
    requires RunOf(task, states, steps) && steps != [] && AllPlanAgain(t, task, states, steps)
    requires Starts(t, task, stamp, created, plan, states[0], steps[0])
    requires var o := Origin(t, states[0].sides, states[0].index, plan);
             Plain(o) && o.Trusted() && InTime(o, RunTries(task, states, steps, |steps|))
    requires forall k: nat :: k < |plan| ==> Succeeds(task, states[|steps|].rows, ItemId(stamp, k))
    ensures var f := Target(t, states[0].sides.local, states[0].sides.remote, plan);
            states[|steps|].sides == Sides(f, f)
  {
    var o := Origin(t, states[0].sides, states[0].index, plan);
    var tries := RunTries(task, states, steps, |steps|);
    RunOnTrack(t, task, o, states[0].rows, states, steps, |steps|);
    RunTried(task, states, steps, |steps|);
    assert StepAt(task, states, steps, 0);
    forall a | a in plan ensures EverReported(Begin(o), tries, a) {
      var k: nat :| k < |plan| && plan[k] == a;
      EnqueuedIsCarried(task, stamp, created, plan, states[0], steps[0], k);
      RowsStay(task, states, steps, 1, |steps|, ItemId(stamp, k));
      assert Earned(task, states[0].rows, states[|steps|].rows, ItemId(stamp, k));
    }
    HalfwayAfter(o, tries);
    AllReportedReachTarget(o, tries);
  }

  /** So for every plan in which no delete lies above a move's source, whatever the order. */
  lemma RedeliveryInAnyOrder(t: Task, task: string, stamp: string, created: string, plan: seq<Action>,
                             states: seq<System>, steps: seq<Step>)
    requires RunOf(task, states, steps) && steps != [] && AllPlanAgain(t, task, states, steps)
    requires Starts(t, task, stamp, created, plan, states[0], steps[0])
    requires var o := Origin(t, states[0].sides, states[0].index, plan); Plain(o) && o.Trusted()
    requires NoMoveOutOfDeletes(plan)
    requires forall k: nat :: k < |plan| ==> Succeeds(task, states[|steps|].rows, ItemId(stamp, k))
    ensures var f := Target(t, states[0].sides.local, states[0].sides.remote, plan);
            states[|steps|].sides == Sides(f, f)
  {
    var o := Origin(t, states[0].sides, states[0].index, plan);
    NoneLate(o, Performed(Begin(o), RunTries(task, states, steps, |steps|)));
    RedeliveryReachesTarget(t, task, stamp, created, plan, states, steps);
  }
}
