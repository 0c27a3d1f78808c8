/** At-least-once delivery of a plan through the retry queue: any run of drains, ticks and manual retries,
    with any faults, is a sequence of attempts, and what its end says about the trees. */
module AtLeastOnce {
  import opened Trees
  import opened Actions
  import opened FileIndex
  import opened Planner
  import opened Convergence
  import opened Conditions
  import opened OperationQueue
  import opened Execution
  import opened Drain
  import opened FreshQueue
  import opened Retries
  import opened Risks
  import opened Scheduler

  // ---- the attempts a run makes -------------------------------------------------------------------

  /** The attempts of a drain, up to the first failing one. */
  function DrainTries(s: System, items: seq<Item>, faults: string -> Fault): seq<Try>
    decreases |items|
  {
    if items == [] then []
    else if !Executable(items[0]) then DrainTries(s, items[1..], faults)
    else
      var item := items[0];
      var r := Execute(s, item, item.op.action, faults(item.id));
      [Try(item.op.action, item.attempts, faults(item.id))] +
      if r.ok then DrainTries(Completed(r.system, item), items[1..], faults) else []
  }

  /** What one item of a tick attempts on the trees: its action, or the rows that running its task drains. */
  function ItemTries(s: System, op: Item, d: Delivery): seq<Try>
    requires Fits(op, d)
  {
    match d
    case Resolved(fault) => [Try(op.op.action, op.attempts, fault)]
    case Reran(_, queued, items, faults, _) => DrainTries(s.(rows := queued), items, faults)
    case _ => []
  }

  function TickTries(s: System, ops: seq<Item>, executed: set<string>, ds: seq<Delivery>,
                     later: nat -> string): seq<Try>
    requires AllFit(ops, ds)
  {
    if ops == [] then []
    else
      var n := |ops| - 1;
      TickTries(s, ops[..n], executed, ds[..n], later) +
      if ops[n].task in executed then []
      else ItemTries(TickItems(s, ops[..n], executed, ds[..n], later), ops[n], ds[n])
  }

  ghost function StepTries(task: string, s: System, step: Step): seq<Try>
    requires Enabled(task, s, step)
  {
    match step
    case RunTask(queued, items, faults, _) => DrainTries(s.(rows := queued), items, faults)
    case Tick(ops, executed, ds, later) => TickTries(s, ops, executed, ds, later)
    case _ => []
  }

  /** The attempts of a run's first n steps on the task's trees. */
  ghost function RunTries(task: string, states: seq<System>, steps: seq<Step>, n: nat): seq<Try>
    requires RunOf(task, states, steps) && n <= |steps|
  {
    if n == 0 then []
    else
      assert StepAt(task, states, steps, n - 1);
      RunTries(task, states, steps, n - 1) + StepTries(task, states[n - 1], steps[n - 1])
  }

  // ---- where attempts come from, and what succeeded rows say --------------------------------------

  /** The task's action row has ended well. */
  predicate Succeeds(task: string, rows: Table, id: string) {
    id in rows && rows[id].task == task && rows[id].op.Sync? && rows[id].status.Succeeded?
  }

  /** The task's row carries the action, and was live in base, or has been added since. */
  predicate Carried(task: string, base: Table, rows: Table, id: string, a: Action) {
    && id in rows && rows[id].task == task && rows[id].op == Sync(a)
    && (id in base ==> base[id].status.Live())
  }

  ghost predicate Comes(task: string, base: Table, rows: Table, a: Action) {
    exists id :: Carried(task, base, rows, id, a)
  }

  /** The task's row has ended well, and had not in base. */
  predicate Earned(task: string, base: Table, rows: Table, id: string) {
    Succeeds(task, rows, id) && !Succeeds(task, base, id)
  }

  /** From base and first to s, exactly these attempts were made, all at actions of the task's rows, and each
      row that ended well was reported as a success. */
  ghost predicate Accounts(task: string, base: Table, first: Store, s: System, tries: seq<Try>) {
    && StoreOf(s) == AfterTries(first, tries)
    && (forall t :: t in tries ==> Comes(task, base, s.rows, t.action))
    && (forall id :: Earned(task, base, s.rows, id) ==> EverReported(first, tries, s.rows[id].op.action))
  }

  lemma OneTry(s: Store, t: Try)
    ensures AfterTries(s, [t]) == TryOnce(s, t).store
    ensures TryOnce(s, t).ok ==> EverReported(s, [t], t.action)
  {
    assert [t][..0] == [] && [t][0] == t;
    assert Reported(s, [t], 0) <==> TryOnce(s, t).ok;
  }

  // ---- drains -------------------------------------------------------------------------------------

  /** None of the executable items has the id. */
  predicate Spared(items: seq<Item>, id: string) {
    forall item :: item in items && Executable(item) ==> item.id != id
  }

  ghost predicate Drained(s: System, items: seq<Item>, t: System, tries: seq<Try>) {
    && StoreOf(t) == AfterTries(StoreOf(s), tries) && t.rows.Keys == s.rows.Keys
    && (forall item :: item in items && Executable(item) && item.id in t.rows && t.rows[item.id].status.Succeeded? ==>
          EverReported(StoreOf(s), tries, item.op.action))
    && (forall id :: id in s.rows && Spared(items, id) ==> t.rows[id] == s.rows[id])
    && forall x :: x in tries ==> exists item :: item in items && Carries(item, x.action)
  }

  /** A drain is a sequence of attempts at its items' actions, and an item it ends has been reported. */
  lemma {:induction false} DrainTried(s: System, items: seq<Item>, faults: string -> Fault, retryAt: string)
    requires Current(s.rows, items)
    ensures Drained(s, items, DrainItems(s, items, faults, retryAt).system, DrainTries(s, items, faults))
    decreases |items|
  {
    if items != [] {
      var item, rest := items[0], items[1..];
      assert items == [item] + rest;
      assert forall j :: 0 <= j < |rest| ==> rest[j] == items[j + 1];
      assert s.rows[item.id] == item;
      forall x | x in rest ensures x.id != item.id && x.id in s.rows && s.rows[x.id] == x {
        var j :| 0 <= j < |rest| && rest[j] == x;
        assert items[j + 1] == x;
      }
      if !Executable(item) {
        DrainTried(s, rest, faults, retryAt);
      } else {
        DrainTriedFirst(s, item, rest, faults, retryAt);
      }
    }
  }

  lemma {:induction false} DrainTriedFirst(s: System, item: Item, rest: seq<Item>, faults: string -> Fault,
                                           retryAt: string)
    requires Executable(item) && item.id in s.rows && s.rows[item.id] == item && Current(s.rows, rest)
    requires forall x :: x in rest ==> x.id != item.id
    ensures var items := [item] + rest;
            Drained(s, items, DrainItems(s, items, faults, retryAt).system, DrainTries(s, items, faults))
    decreases |rest| + 1, 0
  {
    var items := [item] + rest;
    var first := Try(item.op.action, item.attempts, faults(item.id));
    var r := Execute(s, item, item.op.action, faults(item.id));
    assert items[0] == item && items[1..] == rest;
    ExecuteIsTry(s, item, item.op.action, faults(item.id));
    OneTry(StoreOf(s), first);
    forall id
      ensures r.system.rows.Keys == s.rows.Keys && (id in s.rows && id != item.id ==> r.system.rows[id] == s.rows[id])
    {
      ExecuteRows(s, item, item.op.action, faults(item.id), id);
    }
    if r.ok {
      var s1 := Completed(r.system, item);
      forall k | 0 <= k < |rest| ensures s1.rows[rest[k].id] == rest[k] { assert rest[k] in rest; }
      assert Current(s1.rows, rest);
      DrainTried(s1, rest, faults, retryAt);
      DrainedFurther(s, item, rest, first, s1, DrainItems(s1, rest, faults, retryAt).system,
                     DrainTries(s1, rest, faults));
    } else {
      DrainedOnce(s, item, rest, first, Degraded(r.system, item, retryAt));
      assert [first] + [] == [first];
    }
  }

  lemma DrainedOnce(s: System, item: Item, rest: seq<Item>, first: Try, t: System)
    requires Executable(item) && first.action == item.op.action && StoreOf(t) == AfterTries(StoreOf(s), [first])
    requires t.rows.Keys == s.rows.Keys && forall id :: id in s.rows && id != item.id ==> t.rows[id] == s.rows[id]
    requires item.id in t.rows && !t.rows[item.id].status.Succeeded?
    requires Current(s.rows, rest) && forall x :: x in rest ==> x.id != item.id
    ensures Drained(s, [item] + rest, t, [first])
  {
    var items := [item] + rest;
    forall x | x in items && Executable(x) && x.id in t.rows ensures !t.rows[x.id].status.Succeeded? {
      if x != item {
        var k :| 0 <= k < |rest| && rest[k] == x;
      }
    }
    assert item in items && Carries(item, first.action);
  }

  lemma DrainedFurther(s: System, item: Item, rest: seq<Item>, first: Try, s1: System, t: System, more: seq<Try>)
    requires Executable(item) && first.action == item.op.action && StoreOf(s1) == AfterTries(StoreOf(s), [first])
    requires EverReported(StoreOf(s), [first], item.op.action)
    requires s1.rows.Keys == s.rows.Keys && forall id :: id in s.rows && id != item.id ==> s1.rows[id] == s.rows[id]
    requires Drained(s1, rest, t, more)
    ensures Drained(s, [item] + rest, t, [first] + more)
  {
    var items, tries := [item] + rest, [first] + more;
    AfterBoth(StoreOf(s), [first], more);
    forall x | x in items && Executable(x) && x.id in t.rows && t.rows[x.id].status.Succeeded?
      ensures EverReported(StoreOf(s), tries, x.op.action)
    {
      assert x == item || x in rest;
      ReportedInBoth(StoreOf(s), [first], more, x.op.action);
    }
    forall x | x in tries ensures exists y :: y in items && Carries(y, x.action) {
      if x == first {
        assert item in items && Carries(item, x.action);
      } else {
        var y :| y in rest && Carries(y, x.action);
        assert y in items;
      }
    }
    forall id | id in s.rows && Spared(items, id) ensures t.rows[id] == s.rows[id] {
      assert item in items && forall y :: y in rest ==> y in items;
    }
  }

  /** Each attempt of a drain is at the action of an executable item, whose row is current. */
  lemma DrainTryCarried(s: System, items: seq<Item>, faults: string -> Fault, retryAt: string, x: Try)
    returns (item: Item)
    requires Current(s.rows, items) && x in DrainTries(s, items, faults)
    ensures item in items && Carries(item, x.action) && item.id in s.rows && s.rows[item.id] == item
  {
    DrainTried(s, items, faults, retryAt);
    item :| item in items && Carries(item, x.action);
    var j :| 0 <= j < |items| && items[j] == item;
  }

  // ---- one transition after another ---------------------------------------------------------------

  ghost predicate RowsKept(s: System, t: System) {
    forall id :: id in s.rows ==> id in t.rows && SameWork(s.rows[id], t.rows[id])
  }

  /** From s to t, exactly these attempts were made, all at actions of the task's rows, and each row that has
      newly ended well was reported as a success. */
  ghost predicate Attempts(task: string, base: Table, s: System, t: System, more: seq<Try>) {
    && StoreOf(t) == AfterTries(StoreOf(s), more) && RowsKept(s, t)
    && (forall x :: x in more ==> Comes(task, base, t.rows, x.action))
    && (forall id :: Earned(task, s.rows, t.rows, id) ==> EverReported(StoreOf(s), more, t.rows[id].op.action))
  }

  lemma AccountsFurther(task: string, base: Table, first: Store, s: System, tries: seq<Try>, t: System, more: seq<Try>)
    requires Accounts(task, base, first, s, tries) && Attempts(task, base, s, t, more)
    ensures Accounts(task, base, first, t, tries + more)
  {
    AfterBoth(first, tries, more);
    forall x | x in tries + more ensures Comes(task, base, t.rows, x.action) {
      if x in tries {
        var id :| Carried(task, base, s.rows, id, x.action);
        assert Carried(task, base, t.rows, id, x.action);
      }
    }
    forall id | Earned(task, base, t.rows, id) ensures EverReported(first, tries + more, t.rows[id].op.action) {
      assert Earned(task, base, s.rows, id) || Earned(task, s.rows, t.rows, id);
      ReportedInBoth(first, tries, more, t.rows[id].op.action);
    }
  }

  /** The task's own drain. */
  lemma DrainAttempts(task: string, base: Table, s: System, queued: Table, items: seq<Item>, faults: string -> Fault,
                      retryAt: string)
    requires Drains(task, s.rows, queued, items)
    requires forall id :: id in base && id in s.rows ==> Wears(base[id], s.rows[id])
    requires forall id :: id in base ==> id in s.rows
    ensures Attempts(task, base, s, DrainItems(s.(rows := queued), items, faults, retryAt).system,
                     DrainTries(s.(rows := queued), items, faults))
  {
    var s1 := s.(rows := queued);
    var t, more := DrainItems(s1, items, faults, retryAt).system, DrainTries(s1, items, faults);
    DrainTried(s1, items, faults, retryAt);
    forall id | id in queued ensures id in t.rows && SameWork(queued[id], t.rows[id]) {
      DrainKeepsRemaining(s1, items, faults, retryAt, id);
    }
    forall x | x in items ensures x.id in queued && queued[x.id] == x {
      var j :| 0 <= j < |items| && items[j] == x;
    }
    forall x | x in more ensures Comes(task, base, t.rows, x.action) {
      var item :| item in items && Carries(item, x.action);
      assert Carried(task, base, t.rows, item.id, x.action);
    }
    forall id | Earned(task, s.rows, t.rows, id) ensures EverReported(StoreOf(s), more, t.rows[id].op.action) {
      assert id in queued && !queued[id].status.Succeeded?;
      assert !Spared(items, id);
    }
  }

  /** Only rows of other tasks have changed or been added. */
  ghost predicate OthersOnly(task: string, rows: Table, after: Table) {
    forall id :: (id in rows ==> id in after && SameWork(rows[id], after[id]))
                 && (id in after && after[id].task == task ==> id in rows && after[id] == rows[id])
  }

  /** Another task's drain leaves this task's rows alone. */
  lemma OthersSpared(task: string, other: string, rows: Table, queued: Table, sides: Sides, index: Index,
                     items: seq<Item>, faults: string -> Fault, retryAt: string)
    requires other != task && Drains(other, rows, queued, items)
    ensures OthersOnly(task, rows, DrainItems(System(sides, index, queued), items, faults, retryAt).system.rows)
  {
    var s1 := System(sides, index, queued);
    DrainTried(s1, items, faults, retryAt);
    forall id | id in queued
      ensures SameWork(queued[id], DrainItems(s1, items, faults, retryAt).system.rows[id])
      ensures queued[id].task == task ==> Spared(items, id)
    {
      DrainKeepsRemaining(s1, items, faults, retryAt, id);
      forall x | x in items ensures x.id in queued && queued[x.id] == x {
        var j :| 0 <= j < |items| && items[j] == x;
      }
    }
  }

  // ---- ticks --------------------------------------------------------------------------------------

  /** One item of a tick that began with the rows of base. */
  ghost predicate ItemReady(task: string, base: Table, s: System, op: Item, d: Delivery) {
    && Deliverable(task, s, op, d) && op.id in base && base[op.id] == op && op.status.Live()
    && forall id :: id in base ==> id in s.rows && Wears(base[id], s.rows[id])
  }

  lemma ItemAttempts(task: string, base: Table, s: System, op: Item, d: Delivery, later: nat -> string)
    requires ItemReady(task, base, s, op, d)
    ensures Attempts(task, base, s, TickItem(s, op, d, later), ItemTries(s, op, d))
  {
    match d {
      case Resolved(fault) => ResolvedAttempts(task, base, s, op, fault, later);
      case Reran(_, queued, items, faults, retryAt) =>
        DrainAttempts(task, base, s, queued, items, faults, retryAt);
        RerunAttempts(task, base, s, op, d, later);
      case RanElsewhere(_, sides, index, queued, items, faults, retryAt) =>
        OthersSpared(task, op.task, s.rows, queued, sides, index, items, faults, retryAt);
        NoAttempts(task, base, s, op, d, later);
      case _ => NoAttempts(task, base, s, op, d, later);
    }
  }

  /** An attempt from an older copy of the row: the other rows stay, and this one ends well only if it is reported. */
  lemma ResolvedRows(s: System, op: Item, fault: Fault, later: nat -> string)
    requires op.op.Sync? && op.id in s.rows && SameWork(op, s.rows[op.id]) && op.status.Live()
    ensures var t, x := TickItem(s, op, Resolved(fault), later), Try(op.op.action, op.attempts, fault);
            && StoreOf(t) == AfterTries(StoreOf(s), [x]) && t.rows.Keys == s.rows.Keys
            && (forall id :: id in s.rows && id != op.id ==> t.rows[id] == s.rows[id])
            && SameWork(s.rows[op.id], t.rows[op.id])
            && (t.rows[op.id].status.Succeeded? ==> EverReported(StoreOf(s), [x], op.op.action))
  {
    ExecuteIsTry(s, op, op.op.action, fault);
    OneTry(StoreOf(s), Try(op.op.action, op.attempts, fault));
  }

  lemma ResolvedAttempts(task: string, base: Table, s: System, op: Item, fault: Fault, later: nat -> string)
    requires ItemReady(task, base, s, op, Resolved(fault))
    ensures Attempts(task, base, s, TickItem(s, op, Resolved(fault), later), ItemTries(s, op, Resolved(fault)))
  {
    ResolvedRows(s, op, fault, later);
    var t := TickItem(s, op, Resolved(fault), later);
    assert Carried(task, base, t.rows, op.id, op.op.action);
  }

  lemma RerunAttempts(task: string, base: Table, s: System, op: Item, d: Delivery, later: nat -> string)
    requires ItemReady(task, base, s, op, d) && d.Reran?
    requires Attempts(task, base, s, Deliver(s, op, d).system, ItemTries(s, op, d))
    ensures Attempts(task, base, s, TickItem(s, op, d, later), ItemTries(s, op, d))
  {
    TickItemMarks(s, op, d, later);
    MarkedAttempts(task, base, s, Deliver(s, op, d).system, TickItem(s, op, d, later), ItemTries(s, op, d), op.id);
  }

  /** Marking a row that is no action's. */
  lemma MarkedAttempts(task: string, base: Table, s: System, mid: System, t: System, more: seq<Try>, marked: string)
    requires Attempts(task, base, s, mid, more) && StoreOf(t) == StoreOf(mid) && t.rows.Keys == mid.rows.Keys
    requires forall id :: id in mid.rows && id != marked ==> t.rows[id] == mid.rows[id]
    requires marked in s.rows && !s.rows[marked].op.Sync? && SameWork(mid.rows[marked], t.rows[marked])
    ensures Attempts(task, base, s, t, more)
  {
    forall x | x in more ensures Comes(task, base, t.rows, x.action) {
      var id :| Carried(task, base, mid.rows, id, x.action);
      assert Carried(task, base, t.rows, id, x.action);
    }
    forall id | Earned(task, s.rows, t.rows, id) ensures Earned(task, s.rows, mid.rows, id) {
      assert id != marked;
    }
  }

  lemma NoAttempts(task: string, base: Table, s: System, op: Item, d: Delivery, later: nat -> string)
    requires ItemReady(task, base, s, op, d) && !d.Resolved? && !d.Reran?
    requires OthersOnly(task, s.rows, Deliver(s, op, d).system.rows)
    ensures Attempts(task, base, s, TickItem(s, op, d, later), ItemTries(s, op, d))
  {
    TickItemMarks(s, op, d, later);
  }

  lemma {:induction false} TickAccounts(task: string, s: System, ops: seq<Item>, executed: set<string>,
                                        ds: seq<Delivery>, later: nat -> string)
    requires DueItems(s.rows, ops) && TickOk(task, s, ops, executed, ds, later)
    ensures Accounts(task, s.rows, StoreOf(s), TickItems(s, ops, executed, ds, later),
                     TickTries(s, ops, executed, ds, later))
  {
    if ops != [] {
      var n := |ops| - 1;
      var op, front := ops[n], ops[..n];
      FrontDue(s.rows, ops);
      TickAccounts(task, s, front, executed, ds[..n], later);
      var s1, tries := TickItems(s, front, executed, ds[..n], later), TickTries(s, front, executed, ds[..n], later);
      if op.task in executed {
        assert tries + [] == tries;
      } else {
        forall id | id in s.rows ensures id in s1.rows && Wears(s.rows[id], s1.rows[id]) {
          TickWears(task, s, front, executed, ds[..n], later, id);
        }
        ItemAttempts(task, s.rows, s1, op, ds[n], later);
        AccountsFurther(task, s.rows, StoreOf(s), s1, tries, TickItem(s1, op, ds[n], later), ItemTries(s1, op, ds[n]));
      }
    }
  }

  // ---- steps and runs -----------------------------------------------------------------------------

  lemma NothingYet(task: string, s: System)
    ensures Accounts(task, s.rows, StoreOf(s), s, [])
  {
  }

  /** Every step is a sequence of attempts at actions of the task's rows, and a row that ends well in it has
      been reported. */
  lemma StepAccounts(task: string, s: System, step: Step)
    requires Enabled(task, s, step)
    ensures Accounts(task, s.rows, StoreOf(s), TakeStep(task, s, step), StepTries(task, s, step))
  {
    match step {
      case RunTask(queued, items, faults, retryAt) =>
        NothingYet(task, s);
        DrainAttempts(task, s.rows, s, queued, items, faults, retryAt);
        AccountsFurther(task, s.rows, StoreOf(s), s, [], TakeStep(task, s, step), StepTries(task, s, step));
        assert [] + StepTries(task, s, step) == StepTries(task, s, step);
      case Tick(ops, executed, ds, later) => TickAccounts(task, s, ops, executed, ds, later);
      case OtherTask(other, sides, index, queued, items, faults, retryAt) =>
        OthersSpared(task, other, s.rows, queued, sides, index, items, faults, retryAt);
      case _ =>
    }
  }

  /** At every step the task's rows that can be attempted carry planned actions only. */
  ghost predicate OnlyPlannedRun(task: string, plan: seq<Action>, states: seq<System>, steps: seq<Step>)
    requires |states| == |steps| + 1
  {
    forall k :: 0 <= k < |steps| ==> OnlyPlannedAt(task, plan, states, k)
  }

  ghost predicate OnlyPlannedAt(task: string, plan: seq<Action>, states: seq<System>, k: nat)
    requires k + 1 < |states|
  {
    forall a :: Comes(task, states[k].rows, states[k + 1].rows, a) ==> a in plan
  }

  lemma {:induction false} RowsStay(task: string, states: seq<System>, steps: seq<Step>, m: nat, n: nat, id: string)
    requires RunOf(task, states, steps) && m <= n <= |steps| && id in states[m].rows
    ensures id in states[n].rows && SameWork(states[m].rows[id], states[n].rows[id])
  {
    if m < n {
      RowsStay(task, states, steps, m, n - 1, id);
      assert StepAt(task, states, steps, n - 1);
      StepUsesRemaining(task, states[n - 1], steps[n - 1], id);
    }
  }

  /** A row that has succeeded after a step had done so before it or does so in it, its action unchanged. */
  lemma EarnedInStep(task: string, start: Table, s: System, step: Step, id: string)
    requires Enabled(task, s, step) && Earned(task, start, TakeStep(task, s, step).rows, id)
    ensures var t := TakeStep(task, s, step).rows;
            Earned(task, s.rows, t, id) || (Earned(task, start, s.rows, id) && s.rows[id].op == t[id].op)
  {
    if Succeeds(task, s.rows, id) {
      StepUsesRemaining(task, s, step, id);
    }
  }

  /** The state after a run is that after its attempts, and a row that ended well in it was reported as a
      success. */
  lemma {:induction false} RunTried(task: string, states: seq<System>, steps: seq<Step>, n: nat)
    requires RunOf(task, states, steps) && n <= |steps|
    ensures StoreOf(states[n]) == AfterTries(StoreOf(states[0]), RunTries(task, states, steps, n))
    ensures forall id :: Earned(task, states[0].rows, states[n].rows, id) ==>
              EverReported(StoreOf(states[0]), RunTries(task, states, steps, n), states[n].rows[id].op.action)
    decreases n
  {
    if n > 0 {
      var first, s, step := StoreOf(states[0]), states[n - 1], steps[n - 1];
      assert StepAt(task, states, steps, n - 1);
      RunTried(task, states, steps, n - 1);
      StepAccounts(task, s, step);
      var tries, more := RunTries(task, states, steps, n - 1), StepTries(task, s, step);
      AfterBoth(first, tries, more);
      forall id | Earned(task, states[0].rows, states[n].rows, id)
        ensures EverReported(first, tries + more, states[n].rows[id].op.action)
      {
        EarnedInStep(task, states[0].rows, s, step, id);
        ReportedInBoth(first, tries, more, states[n].rows[id].op.action);
      }
    }
  }

  /** If the rows carry planned actions only, so do the attempts. */
  lemma {:induction false} RunDrawn(task: string, plan: seq<Action>, states: seq<System>, steps: seq<Step>, n: nat)
    requires RunOf(task, states, steps) && n <= |steps| && OnlyPlannedRun(task, plan, states, steps)
    ensures DrawnFrom(plan, RunTries(task, states, steps, n))
    decreases n
  {
    if n > 0 {
      assert StepAt(task, states, steps, n - 1);
      RunDrawn(task, plan, states, steps, n - 1);
      assert OnlyPlannedAt(task, plan, states, n - 1);
      StepDrawn(task, plan, states[n - 1], steps[n - 1]);
      DrawnTogether(plan, RunTries(task, states, steps, n - 1), StepTries(task, states[n - 1], steps[n - 1]));
    }
  }

  lemma StepDrawn(task: string, plan: seq<Action>, s: System, step: Step)
    requires Enabled(task, s, step)
    requires forall a :: Comes(task, s.rows, TakeStep(task, s, step).rows, a) ==> a in plan
    ensures DrawnFrom(plan, StepTries(task, s, step))
  {
    StepAccounts(task, s, step);
  }

  lemma DrawnTogether(plan: seq<Action>, g: seq<Try>, h: seq<Try>)
    requires DrawnFrom(plan, g) && DrawnFrom(plan, h)
    ensures DrawnFrom(plan, g + h)
  {
  }

  /** At-least-once delivery. The first step has the plan's rows in the queue, the queue attempts nothing else
      for the sync task, and the risks of a skipped retry are harmless. Whatever drains, ticks, manual retries
      and faults follow: once every planned row has succeeded, the trees are equal exactly under the three
      conditions, the third for the order in which the actions were performed. */
  lemma DeliveryConvergesExactly(t: Task, task: string, plan: seq<Action>, states: seq<System>, steps: seq<Step>)
    requires RunOf(task, states, steps) && steps != [] && OnlyPlannedRun(task, plan, states, steps)
    requires Setting(t, states[0].sides.local, states[0].sides.remote, states[0].index, plan) && t.policy != KeepBoth
    requires RisksHarmless(t, states[0].sides.local, states[0].sides.remote, states[0].index, plan)
    requires forall a :: a in plan ==> exists id ::
               Carried(task, states[0].rows, states[1].rows, id, a) && Succeeds(task, states[|steps|].rows, id)
    ensures states[|steps|].sides.local == states[|steps|].sides.remote <==>
            && NoClash(states[0].sides.local, states[0].sides.remote)
            && NothingKeptUnderDeletes(states[0].sides.remote, plan)
            && MovesBeforeDeletes(Performed(StoreOf(states[0]), RunTries(task, states, steps, |steps|)))
  {
    var tries := RunTries(task, states, steps, |steps|);
    RunTried(task, states, steps, |steps|);
    RunDrawn(task, plan, states, steps, |steps|);
    forall a | a in plan ensures EverReported(StoreOf(states[0]), tries, a) {
      var id :| Carried(task, states[0].rows, states[1].rows, id, a) && Succeeds(task, states[|steps|].rows, id);
      RowsStay(task, states, steps, 1, |steps|, id);
      assert Earned(task, states[0].rows, states[|steps|].rows, id);
    }
    ReportedConvergeExactly(t, StoreOf(states[0]), plan, tries);
  }

  lemma EnqueuedIsCarried(task: string, stamp: string, created: string, plan: seq<Action>, s: System, step: Step,
                          k: nat)
    requires Enabled(task, s, step) && step.RunTask? && k < |plan|
    requires Enqueued(s.rows, step.queued, task, stamp, created, plan, |plan|)
    ensures Carried(task, s.rows, TakeStep(task, s, step).rows, ItemId(stamp, k), plan[k])
  {
    assert IsNewId(stamp, |plan|, ItemId(stamp, k));
    DrainKeepsRemaining(s.(rows := step.queued), step.items, step.faults, step.retryAt, ItemId(stamp, k));
  }

  /** The same from the drain that enqueues the plan, by the ids of its rows and with the conditions on the
      inputs. */
  lemma EnqueuedPlanDelivers(t: Task, task: string, stamp: string, created: string, plan: seq<Action>,
                             states: seq<System>, steps: seq<Step>)
    requires RunOf(task, states, steps) && steps != [] && OnlyPlannedRun(task, plan, states, steps)
    requires Setting(t, states[0].sides.local, states[0].sides.remote, states[0].index, plan) && t.policy != KeepBoth
    requires steps[0].RunTask? && Enqueued(states[0].rows, steps[0].queued, task, stamp, created, plan, |plan|)
    requires RisksHarmless(t, states[0].sides.local, states[0].sides.remote, states[0].index, plan)
    requires forall k: nat :: k < |plan| ==> Succeeds(task, states[|steps|].rows, ItemId(stamp, k))
    ensures var s := states[0];
            states[|steps|].sides.local == states[|steps|].sides.remote <==>
            && NoClash(s.sides.local, s.sides.remote)
            && DeletesWholeDirs(t, s.sides.local, s.sides.remote, s.index)
            && NoMoveIntoDeletes(t, s.sides.local, s.sides.remote, s.index, plan)
            && MovesBeforeDeletes(Performed(StoreOf(s), RunTries(task, states, steps, |steps|)))
  {
    assert StepAt(task, states, steps, 0);
    forall a | a in plan
      ensures exists id ::
                Carried(task, states[0].rows, states[1].rows, id, a) && Succeeds(task, states[|steps|].rows, id)
    {
      var k: nat :| k < |plan| && plan[k] == a;
      EnqueuedIsCarried(task, stamp, created, plan, states[0], steps[0], k);
    }
    DeliveryConvergesExactly(t, task, plan, states, steps);
    NothingKeptExactly(t, states[0].sides.local, states[0].sides.remote, states[0].index, plan);
  }
}
