/** The task service's drivers over the live objects: one attempt at an item, and the plan, enqueue
    and drain of executePlannedActions. */
module Service {
  import opened Trees
  import opened Actions
  import opened FileIndex
  import opened ConflictNames
  import opened Planner
  import opened PlanLoops
  import opened Convergence
  import opened OperationQueue
  import opened Execution
  import opened Conditions
  import opened Drain
  import opened Failures
  import opened FreshQueue
  import opened Runner

  /** Errored: the plan or an insert failed; Stopped: an item failed and waits for its retry. */
  datatype Result = Drained | Stopped | Errored

  lemma ListedNext(items: seq<Item>, k: nat)
    requires k < |items| && forall m, n :: 0 <= m < n < |items| ==> items[m].id != items[n].id
    ensures forall id :: Listed(items[..k + 1], id) <==> Listed(items[..k], id) || id == items[k].id
    ensures !Listed(items[..k], items[k].id)
  {
    assert items[..k + 1][k] == items[k] && forall m :: 0 <= m < k ==> items[..k + 1][m] == items[..k][m];
    forall id | Listed(items[..k], id) ensures Listed(items[..k + 1], id) {
      var m :| 0 <= m < k && items[..k][m].id == id;
      assert items[..k + 1][m].id == id;
    }
  }

  predicate Retryable(item: Item, matches: Item -> bool) {
    Stuck(item) && matches(item)
  }

  /** The retryable rows among the listed ones. */
  ghost function Retried(t: Table, items: seq<Item>, matches: Item -> bool): set<string> {
    set id | id in t && Retryable(t[id], matches) && Listed(items, id)
  }

  /** The rows of a task that the retry of a record re-queues. */
  ghost function ToRetry(t: Table, taskId: string, root: string, record: FailureRecord): set<string> {
    set id | id in t && t[id].task == taskId && Matches(root, record, t[id])
  }

  lemma RetriedNone(t: Table, matches: Item -> bool)
    ensures Retried(t, [], matches) == {} && RetrySome(t, {}) == t
  {
  }

  lemma RetriedNext(t: Table, items: seq<Item>, k: nat, matches: Item -> bool)
    requires k < |items| && Current(t, items)
    ensures var done, next := Retried(t, items[..k], matches), Retried(t, items[..k + 1], matches);
            if Retryable(items[k], matches)
            then && |next| == |done| + 1
                 && RetrySome(t, next) == Reschedule(RetrySome(t, done), items[k].(status := Queued, next := ""))
            else next == done
  {
    ListedNext(items, k);
    var done := Retried(t, items[..k], matches);
    var next := Retried(t, items[..k + 1], matches);
    if Retryable(items[k], matches) {
      assert next == done + {items[k].id};
      RetryOneMore(t, done, items[k]);
    } else {
      assert next == done;
    }
  }

  lemma RetryOneMore(t: Table, ids: set<string>, item: Item)
    requires item.id in t && t[item.id] == item && item.id !in ids && Stuck(item)
    ensures RetrySome(t, ids + {item.id}) == Reschedule(RetrySome(t, ids), item.(status := Queued, next := ""))
  {
  }

  function RetryEach(t: Table, items: seq<Item>, matches: Item -> bool): Table {
    if items == [] then t
    else
      var n := |items| - 1;
      var t1 := RetryEach(t, items[..n], matches);
      if Retryable(items[n], matches) then Reschedule(t1, items[n].(status := Queued, next := "")) else t1
  }

  function CountRetryable(items: seq<Item>, matches: Item -> bool): nat {
    if items == [] then 0
    else CountRetryable(items[..|items| - 1], matches) + if Retryable(items[|items| - 1], matches) then 1 else 0
  }

  lemma {:induction false} RetryEachIsSome(t: Table, items: seq<Item>, matches: Item -> bool)
    requires Current(t, items)
    ensures RetryEach(t, items, matches) == RetrySome(t, Retried(t, items, matches))
    ensures CountRetryable(items, matches) == |Retried(t, items, matches)|
  {
    if items == [] {
      RetriedNone(t, matches);
    } else {
      var n := |items| - 1;
      assert forall k :: 0 <= k < n ==> items[..n][k] == items[k];
      RetryEachIsSome(t, items[..n], matches);
      RetriedNext(t, items, n, matches);
      assert items[..n + 1] == items;
    }
  }

  class TaskService {
    const runner: BaselineRunner
    const queue: OperationQueueTable

    constructor (r: BaselineRunner, q: OperationQueueTable)
      ensures runner == r && queue == q
    {
      runner, queue := r, q;
    }

    function State(): System
      reads this, runner, queue
    {
      System(runner.Both(), runner.index, queue.rows)
    }

    /** One attempt at an item, from the caller's copy of its row. */
    method ExecuteQueueOperation(item: Item, a: Action, fault: Fault) returns (ok: bool)
      modifies runner, queue
      ensures Attempt(State(), ok) == Execute(old(State()), item, a, fault)
    {
      if Skips(runner.index, item.attempts, a) {
        return true;
      }
      var _ := queue.RescheduleItem(item.(status := Executing));
      match fault {
        case LostBefore => ok := false;
        case LostAfter =>
          var _ := runner.ExecuteOne(a);
          ok := false;
        case Healthy => ok := runner.ExecuteAction(a);
      }
    }

    /** Re-queues the retryable ones of the listed items. */
    method RetryItems(items: seq<Item>, matches: Item -> bool) returns (count: nat)
      modifies queue
      ensures queue.rows == RetryEach(old(queue.rows), items, matches)
      ensures count == CountRetryable(items, matches)
    {
      count := 0;
      var k := 0;
      while k < |items|
        invariant 0 <= k <= |items|
        invariant queue.rows == RetryEach(old(queue.rows), items[..k], matches)
        invariant count == CountRetryable(items[..k], matches)
      {
        var item := items[k];
        assert items[..k + 1][..k] == items[..k] && items[..k + 1][k] == item;
        if Retryable(item, matches) {
          var _ := queue.RescheduleItem(item.(status := Queued, next := ""));
          count := count + 1;
        }
        k := k + 1;
      }
      assert items[..k] == items;
    }

    /** Retries what a failure record names: refused for a record of another task, otherwise the matching
        stuck items of the task are re-queued with their attempts kept, and the record is resolved if
        there are any. */
    method RetryFailureByID(taskId: string, root: string, record: FailureRecord)
      returns (ok: bool, count: nat, resolved: bool)
      requires TableOk(queue.rows)
      modifies queue
      ensures ok <==> record.task == taskId
      ensures !ok ==> queue.rows == old(queue.rows) && count == 0
      ensures ok ==> queue.rows == RetrySome(old(queue.rows), ToRetry(old(queue.rows), taskId, root, record))
      ensures ok ==> count == |ToRetry(old(queue.rows), taskId, root, record)|
      ensures ok ==> forall id, now :: id in ToRetry(old(queue.rows), taskId, root, record) ==>
                id in queue.rows && Due(queue.rows[id], now)
                && queue.rows[id].attempts == old(queue.rows)[id].attempts
      ensures resolved <==> count > 0
    {
      if record.task != taskId {
        return false, 0, false;
      }
      var items := queue.ListByTaskID(taskId);
      var matches := item => Matches(root, record, item);
      assert Retried(queue.rows, items, matches) == ToRetry(queue.rows, taskId, root, record);
      RetryEachIsSome(queue.rows, items, matches);
      count := RetryItems(items, matches);
      ok, resolved := true, count > 0;
    }

    /** One row per planned action, never attempted and due at once. An insert fails only over an id that is
        taken. */
    method EnqueuePlan(acts: seq<Action>, taskId: string, stamp: string, created: string) returns (ok: bool)
      requires TableOk(queue.rows)
      modifies queue
      ensures ok ==> Enqueued(old(queue.rows), queue.rows, taskId, stamp, created, acts, |acts|) && TableOk(queue.rows)
      ensures !ok ==> exists k: nat :: k < |acts| && ItemId(stamp, k) in queue.rows
      ensures AddedRows(old(queue.rows), queue.rows, taskId, created, acts)
      ensures TableOk(queue.rows) && exists n: nat ::
                n <= |acts| && Enqueued(old(queue.rows), queue.rows, taskId, stamp, created, acts, n)
    {
      var n := 0;
      while n < |acts|
        invariant 0 <= n <= |acts|
        invariant Enqueued(old(queue.rows), queue.rows, taskId, stamp, created, acts, n) && TableOk(queue.rows)
      {
        ghost var before := queue.rows;
        ok := queue.Enqueue(NewItem(taskId, stamp, created, acts, n));
        if !ok {
          EnqueuedAdds(old(queue.rows), queue.rows, taskId, stamp, created, acts, n);
          return;
        }
        EnqueueNext(old(queue.rows), before, taskId, stamp, created, acts, n);
        n := n + 1;
      }
      EnqueuedAdds(old(queue.rows), queue.rows, taskId, stamp, created, acts, n);
      ok := true;
    }

    /** Executes the executable items in order; the first failure is rescheduled and ends the drain. */
    method DrainQueue(items: seq<Item>, retryAt: string, faults: string -> Fault) returns (ok: bool)
      modifies runner, queue
      ensures Attempt(State(), ok) == DrainItems(old(State()), items, faults, retryAt)
    {
      var k := 0;
      while k < |items|
        invariant 0 <= k <= |items|
        invariant DrainItems(old(State()), items, faults, retryAt) == DrainItems(State(), items[k..], faults, retryAt)
      {
        var item := items[k];
        assert items[k..][0] == item && items[k..][1..] == items[k + 1..];
        if Executable(item) {
          ok := ExecuteQueueOperation(item, item.op.action, faults(item.id));
          if !ok {
            var _ := queue.RescheduleItem(item.(attempts := item.attempts + 1, status := RetryWait, next := retryAt));
            return;
          }
          var _ := queue.Dequeue(item.id);
        }
        k := k + 1;
      }
      ok := true;
    }

    /** Plans, enqueues the plan, and drains the task's items in list order. On Drained and Stopped,
        queued is the table after the inserts and items the listing that was drained. With nothing of
        the task left over the drain completes with the trees it is to leave exactly when no path clashes
        and no fault befalls an item, and, for a bidirectional task, everything below a remote directory
        that is to go is to go, no local move ends there, and the texts of the plan's indexes put no move
        late. Up to ten actions are never put late; with sound rows, none of them marked as a conflict, no
        move ends there. */
    method ExecutePlannedActions(task: Task, taskId: string, stamp: string, created: string, retryAt: string,
                                 faults: string -> Fault)
      returns (result: Result, ghost plan: seq<Action>, ghost queued: Table, ghost items: seq<Item>)
      requires TableOk(queue.rows)
      modifies runner, queue
      ensures result.Errored? ==>
                && runner.Both() == old(runner.Both()) && runner.index == old(runner.index)
                && Extends(old(queue.rows), queue.rows, taskId) && TableOk(queue.rows)
                && QueuesPlanned(task, old(State()), queue.rows)
                && AddedRows(old(queue.rows), queue.rows, taskId, created, plan)
      ensures !result.Errored? ==>
                && PlanOf(task, old(runner.local), old(runner.remote), old(runner.index), plan)
                && Enqueued(old(queue.rows), queued, taskId, stamp, created, plan, |plan|)
                && TableOk(queued) && Listing(queued, false, items)
                && AddedRows(old(queue.rows), queued, taskId, created, plan)
                && (forall id :: Listed(items, id) <==> id in queued && queued[id].task == taskId)
                && Attempt(State(), result.Drained?) ==
                   DrainItems(old(State()).(rows := queued), items, faults, retryAt)
      ensures !result.Errored? && Fresh(task, old(State()), taskId) ==>
                (result.Drained? && Reached(task, old(runner.Both()), runner.Both()) <==>
                 Reachable(task, old(State()), plan) && FaultFree(stamp, plan, faults))
      ensures !result.Errored? && task.direction == Bidirectional && |plan| <= 10 ==> TextOrderOk(plan)
      ensures !result.Errored? && task.direction == Bidirectional
              && IndexOk(old(runner.index)) && NoConflictRows(old(runner.index))
              && DeletesWholeDirs(task, old(runner.local), old(runner.remote), old(runner.index)) ==>
                NoMoveIntoDeletes(task, old(runner.local), old(runner.remote), old(runner.index), plan)
    {
      ghost var before := State();
      items, queued := [], queue.rows;
      var ok, acts := Plan(task, runner.local, runner.remote, runner.index);
      plan := acts;
      if !ok {
        return Errored, plan, queued, items;
      }
      ok := EnqueuePlan(acts, taskId, stamp, created);
      ghost var n: nat :|
        n <= |acts| && Enqueued(before.rows, queue.rows, taskId, stamp, created, acts, n);
      EnqueuedExtends(before.rows, queue.rows, taskId, stamp, created, acts, n);
      EnqueuedQueuesPlanned(task, before, queue.rows, taskId, stamp, created, acts, n);
      if !ok {
        return Errored, plan, queued, items;
      }
      queued := queue.rows;
      var listing := queue.ListByTaskID(taskId);
      items := listing;
      ok := DrainQueue(listing, retryAt, faults);
      result := if ok then Drained else Stopped;
      if task.direction == Bidirectional {
        if |plan| <= 10 {
          TenActionsInOrder(plan);
        }
        if IndexOk(before.index) && NoConflictRows(before.index) {
          NoMovesByInputs(task, before.sides.local, before.sides.remote, before.index, plan);
        }
      }
      if Fresh(task, before, taskId) {
        FreshPlanConvergesExactly(task, before, queued, taskId, stamp, created, plan, items, faults, retryAt);
      }
    }
  }
}
