/** Enqueueing a plan and draining it from a queue that holds nothing else of its sync task: the order
    the listing gives the plan's actions, and when that order converges. */
module FreshQueue {
  import opened Trees
  import opened Actions
  import opened Text
  import opened FileIndex
  import opened OperationQueue
  import opened Execution
  import opened Drain
  import opened Planner
  import opened PlanLoops
  import opened OneWay
  import opened Settling
  import opened Convergence
  import opened Conditions
  import opened ConflictNames

  // ---- enqueueing a plan --------------------------------------------------------------------------

  /** Item k of a plan; stamp is the task's id and the planning time. */
  function ItemId(stamp: string, k: nat): string {
    stamp + Decimal(k)
  }

  function NewItem(task: string, stamp: string, created: string, acts: seq<Action>, k: nat): Item
    requires k < |acts|
  {
    Item(ItemId(stamp, k), task, Sync(acts[k]), 0, Queued, 0, "", created)
  }

  /** A row that nothing has been tried on: of this task, with all its attempts ahead, ranked by its creation
      alone, and due whenever the queue is asked. */
  ghost predicate Unattempted(item: Item, task: string, created: string) {
    && item.task == task && item.created == created && item.priority == 0
    && item.status == Queued && item.attempts == 0 && forall now :: Due(item, now)
  }

  /** What enqueueing added are rows of actions of the plan, each due at once. */
  ghost predicate AddedRows(before: Table, after: Table, task: string, created: string, acts: seq<Action>) {
    forall id :: id in after && id !in before ==>
      after[id].op.Sync? && after[id].op.action in acts && Unattempted(after[id], task, created)
  }

  lemma EnqueuedAdds(before: Table, after: Table, task: string, stamp: string, created: string,
                     acts: seq<Action>, n: nat)
    requires n <= |acts| && Enqueued(before, after, task, stamp, created, acts, n)
    ensures AddedRows(before, after, task, created, acts)
  {
    forall id | id in after && id !in before
      ensures after[id].op.Sync? && after[id].op.action in acts && Unattempted(after[id], task, created)
    {
      var k: nat :| k < n && id == ItemId(stamp, k);
      assert acts[k] in acts;
    }
  }

  lemma ItemIdsDiffer(stamp: string, j: nat, k: nat)
    requires ItemId(stamp, j) == ItemId(stamp, k)
    ensures j == k
  {
    assert ItemId(stamp, j)[|stamp|..] == Decimal(j) && ItemId(stamp, k)[|stamp|..] == Decimal(k);
    DecimalInjective(j, k);
  }

  predicate IsNewId(stamp: string, n: nat, id: string) {
    exists k: nat :: k < n && id == ItemId(stamp, k)
  }

  /** after is before with the first n items of the plan added. */
  ghost predicate Enqueued(before: Table, after: Table, task: string, stamp: string, created: string,
                           acts: seq<Action>, n: nat)
    requires n <= |acts|
  {
    && (forall id :: id in after <==> id in before || IsNewId(stamp, n, id))
    && (forall id :: id in before ==> !IsNewId(stamp, n, id) && after[id] == before[id])
    && (forall k: nat :: k < n ==>
          ItemId(stamp, k) in after && after[ItemId(stamp, k)] == NewItem(task, stamp, created, acts, k))
  }

  /** after is before with newly queued rows of the task. */
  ghost predicate Extends(before: Table, after: Table, task: string) {
    && (forall id :: id in before ==> id in after && after[id] == before[id])
    && forall id :: id in after && id !in before ==> after[id].status.Queued? && after[id].task == task
  }

  lemma EnqueuedExtends(before: Table, after: Table, task: string, stamp: string, created: string,
                        acts: seq<Action>, n: nat)
    requires n <= |acts| && Enqueued(before, after, task, stamp, created, acts, n)
    ensures Extends(before, after, task)
    ensures forall id :: id in after && id !in before ==> after[id].op.Sync?
  {
    forall id | id in after && id !in before
      ensures after[id].status.Queued? && after[id].op.Sync? && after[id].task == task
    {
      var k: nat :| k < n && id == ItemId(stamp, k);
    }
  }

  lemma EnqueueNext(before: Table, after: Table, task: string, stamp: string, created: string, acts: seq<Action>,
                    n: nat)
    requires n < |acts| && Enqueued(before, after, task, stamp, created, acts, n) && ItemId(stamp, n) !in after
    ensures var more := after[ItemId(stamp, n) := NewItem(task, stamp, created, acts, n)];
            Enqueued(before, more, task, stamp, created, acts, n + 1)
  {
    var more := after[ItemId(stamp, n) := NewItem(task, stamp, created, acts, n)];
    forall id ensures IsNewId(stamp, n + 1, id) <==> IsNewId(stamp, n, id) || id == ItemId(stamp, n) {
      if k: nat :| k < n + 1 && id == ItemId(stamp, k) {
        assert k < n ==> IsNewId(stamp, n, id);
      }
    }
    forall k: nat | k < n ensures more[ItemId(stamp, k)] == NewItem(task, stamp, created, acts, k) {
      if ItemId(stamp, k) == ItemId(stamp, n) { ItemIdsDiffer(stamp, k, n); }
    }
  }

  /** With nothing of the task left over, the executable items are exactly the new plan's, in the order
      of the listing: a schedule of the plan. */
  lemma FreshQueueSchedule(before: Table, after: Table, task: string, stamp: string, created: string,
                           plan: seq<Action>, items: seq<Item>)
    requires Enqueued(before, after, task, stamp, created, plan, |plan|) && TableOk(after) && NoRepeats(plan)
    requires forall id :: id in before && before[id].task == task ==> !Executable(before[id])
    requires Listing(after, false, items) && forall id :: Listed(items, id) <==> id in after && after[id].task == task
    ensures Schedule(plan, QueuedActions(items)) && NoRepeats(QueuedActions(items)) && FirstAttempts(items)
    ensures forall item :: item in items && Executable(item) ==>
              exists k: nat :: k < |plan| && item == NewItem(task, stamp, created, plan, k)
  {
    forall item | item in items && Executable(item)
      ensures exists k: nat :: k < |plan| && item == NewItem(task, stamp, created, plan, k)
    {
      var m :| 0 <= m < |items| && items[m] == item;
      assert Listed(items, item.id);
      assert IsNewId(stamp, |plan|, item.id);
      var k: nat :| k < |plan| && item.id == ItemId(stamp, k);
      assert after[ItemId(stamp, k)] == NewItem(task, stamp, created, plan, k);
    }
    forall a ensures a in QueuedActions(items) <==> a in plan {
      QueuedFrom(items, a);
      if a in plan {
        var k: nat :| k < |plan| && plan[k] == a;
        var item := NewItem(task, stamp, created, plan, k);
        assert after[ItemId(stamp, k)] == item;
        assert Listed(items, item.id);
        var m :| 0 <= m < |items| && items[m].id == item.id;
        assert items[m] == item && item in items && Executable(item);
      }
    }
    QueuedDistinct(items, task, stamp, created, plan);
  }

  lemma {:induction false} QueuedFrom(items: seq<Item>, a: Action)
    ensures a in QueuedActions(items) <==> exists item :: item in items && Executable(item) && item.op.action == a
  {
    if items != [] {
      QueuedFrom(items[1..], a);
      assert items == [items[0]] + items[1..];
    }
  }

  // Distinct items of one plan carry distinct actions.
  lemma {:induction false} QueuedDistinct(items: seq<Item>, task: string, stamp: string, created: string,
                                          plan: seq<Action>)
    requires NoRepeats(plan)
    requires forall j, k :: 0 <= j < k < |items| ==> items[j].id != items[k].id
    requires forall item :: item in items && Executable(item) ==>
               exists k: nat :: k < |plan| && item == NewItem(task, stamp, created, plan, k)
    ensures NoRepeats(QueuedActions(items))
  {
    if items != [] {
      var item, rest := items[0], items[1..];
      assert items == [item] + rest;
      assert forall j :: 0 <= j < |rest| ==> rest[j] == items[j + 1];
      QueuedDistinct(rest, task, stamp, created, plan);
      if Executable(item) {
        QueuedFrom(rest, item.op.action);
        forall other | other in rest && Executable(other) ensures other.op.action != item.op.action {
          assert other in items && item in items && other.id != item.id;
        }
      }
    }
  }

  /** The executable rows that queued adds carry actions of plans for the trees and the index. */
  ghost predicate QueuesPlanned(task: Task, s: System, queued: Table) {
    forall id :: id in queued && id !in s.rows && Executable(queued[id]) ==> PlannedFrom(task, s, queued[id].op.action)
  }

  ghost predicate PlannedFrom(task: Task, s: System, a: Action) {
    exists plan :: PlanOf(task, s.sides.local, s.sides.remote, s.index, plan) && a in plan
  }

  lemma EnqueuedQueuesPlanned(task: Task, s: System, queued: Table, taskId: string, stamp: string, created: string,
                              plan: seq<Action>, n: nat)
    requires n <= |plan| && Enqueued(s.rows, queued, taskId, stamp, created, plan, n)
    requires PlanOf(task, s.sides.local, s.sides.remote, s.index, plan)
    ensures QueuesPlanned(task, s, queued)
  {
    forall id | id in queued && id !in s.rows ensures PlannedFrom(task, s, queued[id].op.action) {
      var k: nat :| k < n && id == ItemId(stamp, k);
      assert plan[k] in plan;
    }
  }

  // ---- the order of the listing -------------------------------------------------------------------

  ghost predicate Precedes(acts: seq<Action>, a: Action, b: Action) {
    exists j, k :: 0 <= j < k < |acts| && acts[j] == a && acts[k] == b
  }

  /** An executable item with action a stands before one with action b. */
  ghost predicate ItemPrecedes(items: seq<Item>, a: Action, b: Action) {
    exists m, n :: 0 <= m < n < |items| && Carries(items[m], a) && Carries(items[n], b)
  }

  lemma PrecedesCons(first: Action, rest: seq<Action>, a: Action, b: Action)
    ensures Precedes([first] + rest, a, b) <==> Precedes(rest, a, b) || (first == a && b in rest)
  {
    if Precedes(rest, a, b) || (first == a && b in rest) {
      PrecedesAll(first, rest, a, b);
    }
    if Precedes([first] + rest, a, b) {
      PrecedesRest(first, rest, a, b);
    }
  }

  lemma PrecedesAll(first: Action, rest: seq<Action>, a: Action, b: Action)
    requires Precedes(rest, a, b) || (first == a && b in rest)
    ensures Precedes([first] + rest, a, b)
  {
    var all := [first] + rest;
    if Precedes(rest, a, b) {
      var j: nat, k: nat :| j < k < |rest| && rest[j] == a && rest[k] == b;
      assert all[j + 1] == a && all[k + 1] == b;
    } else {
      var k: nat :| k < |rest| && rest[k] == b;
      assert all[0] == a && all[k + 1] == b;
    }
  }

  lemma PrecedesRest(first: Action, rest: seq<Action>, a: Action, b: Action)
    requires Precedes([first] + rest, a, b)
    ensures Precedes(rest, a, b) || (first == a && b in rest)
  {
    var all := [first] + rest;
    var j: nat, k: nat :| j < k < |all| && all[j] == a && all[k] == b;
    assert rest[k - 1] == b;
    if j > 0 {
      assert rest[j - 1] == a;
    }
  }

  predicate CarriedBy(items: seq<Item>, b: Action) {
    exists item :: item in items && Carries(item, b)
  }

  lemma ItemPrecedesMore(first: Item, rest: seq<Item>, a: Action, b: Action)
    requires ItemPrecedes(rest, a, b) || (Carries(first, a) && CarriedBy(rest, b))
    ensures ItemPrecedes([first] + rest, a, b)
  {
    var all := [first] + rest;
    if ItemPrecedes(rest, a, b) {
      var j: nat, k: nat :| j < k < |rest| && Carries(rest[j], a) && Carries(rest[k], b);
      assert all[j + 1] == rest[j] && all[k + 1] == rest[k];
    } else {
      var item :| item in rest && Carries(item, b);
      var k: nat :| k < |rest| && rest[k] == item;
      assert all[0] == first && all[k + 1] == item;
    }
  }

  lemma ItemPrecedesLess(first: Item, rest: seq<Item>, a: Action, b: Action)
    requires ItemPrecedes([first] + rest, a, b)
    ensures ItemPrecedes(rest, a, b) || (Carries(first, a) && CarriedBy(rest, b))
  {
    var all := [first] + rest;
    var j: nat, k: nat :| j < k < |all| && Carries(all[j], a) && Carries(all[k], b);
    assert rest[k - 1] == all[k] && rest[k - 1] in rest;
    if j > 0 {
      assert rest[j - 1] == all[j];
    }
  }

  lemma {:induction false} QueuedOrder(items: seq<Item>, a: Action, b: Action)
    ensures Precedes(QueuedActions(items), a, b) <==> ItemPrecedes(items, a, b)
  {
    if items != [] {
      var item, rest := items[0], items[1..];
      assert items == [item] + rest;
      QueuedOrder(rest, a, b);
      QueuedFrom(rest, b);
      if ItemPrecedes(items, a, b) { ItemPrecedesLess(item, rest, a, b); }
      if ItemPrecedes(rest, a, b) || (Carries(item, a) && CarriedBy(rest, b)) { ItemPrecedesMore(item, rest, a, b); }
      if Executable(item) {
        PrecedesCons(item.op.action, QueuedActions(rest), a, b);
      } else {
        assert QueuedActions(items) == QueuedActions(rest);
      }
    }
  }

  /** Two items of a plan are listed in the order of their indexes' texts. */
  lemma NewItemsOrder(task: string, stamp: string, created: string, plan: seq<Action>, j: nat, k: nat)
    requires j < |plan| && k < |plan|
    ensures Before(false, NewItem(task, stamp, created, plan, j), NewItem(task, stamp, created, plan, k)) <==>
            TextLess(Decimal(j), Decimal(k))
  {
    TextSamePrefix(stamp, Decimal(j), Decimal(k));
  }

  /** No move comes after the delete of a directory above its source when the indexes of both are
      compared as texts. */
  ghost predicate TextOrderOk(plan: seq<Action>) {
    forall j: nat, k: nat :: j < |plan| && k < |plan| && LateInText(plan, j, k) ==> !DeletesUnder(plan[j], plan[k])
  }

  predicate LateInText(plan: seq<Action>, j: nat, k: nat) {
    TextLess(Decimal(j), Decimal(k))
  }

  /** The listing of a freshly enqueued plan. */
  ghost predicate FreshListing(before: Table, after: Table, task: string, stamp: string, created: string,
                               plan: seq<Action>, items: seq<Item>)
  {
    && Enqueued(before, after, task, stamp, created, plan, |plan|) && TableOk(after) && NoRepeats(plan)
    && (forall id :: id in before && before[id].task == task ==> !Executable(before[id]))
    && Listing(after, false, items) && forall id :: Listed(items, id) <==> id in after && after[id].task == task
  }

  lemma NewItemListed(before: Table, after: Table, task: string, stamp: string, created: string,
                      plan: seq<Action>, items: seq<Item>, k: nat) returns (m: nat)
    requires FreshListing(before, after, task, stamp, created, plan, items) && k < |plan|
    ensures m < |items| && items[m] == NewItem(task, stamp, created, plan, k) && Carries(items[m], plan[k])
  {
    var item := NewItem(task, stamp, created, plan, k);
    assert after[ItemId(stamp, k)] == item;
    assert Listed(items, item.id);
    m :| 0 <= m < |items| && items[m].id == item.id;
  }

  /** Item j's action is drained before item k's exactly if j comes before k as a text. */
  lemma DrainedInTextOrder(before: Table, after: Table, task: string, stamp: string, created: string,
                           plan: seq<Action>, items: seq<Item>, j: nat, k: nat)
    requires FreshListing(before, after, task, stamp, created, plan, items) && j < |plan| && k < |plan| && j != k
    ensures Precedes(QueuedActions(items), plan[j], plan[k]) <==> TextLess(Decimal(j), Decimal(k))
  {
    FreshQueueSchedule(before, after, task, stamp, created, plan, items);
    QueuedOrder(items, plan[j], plan[k]);
    NewItemsOrder(task, stamp, created, plan, j, k);
    NewItemsOrder(task, stamp, created, plan, k, j);
    TextTotal(Decimal(j), Decimal(k));
    var m := NewItemListed(before, after, task, stamp, created, plan, items, j);
    var n := NewItemListed(before, after, task, stamp, created, plan, items, k);
    if m == n { ItemIdsDiffer(stamp, j, k); }
    forall x | x in items && Carries(x, plan[j]) ensures x == items[m] {
      OneItemEach(task, stamp, created, plan, x, j);
    }
    forall x | x in items && Carries(x, plan[k]) ensures x == items[n] {
      OneItemEach(task, stamp, created, plan, x, k);
    }
    PlacesDecide(items, plan[j], m, plan[k], n);
    assert Before(false, items[if m < n then m else n], items[if m < n then n else m]);
  }

  lemma PlacesDecide(items: seq<Item>, a: Action, m: nat, b: Action, n: nat)
    requires m < |items| && n < |items| && Carries(items[m], a) && Carries(items[n], b)
    requires forall j, k :: 0 <= j < k < |items| ==> items[j].id != items[k].id
    requires forall x :: x in items && Carries(x, a) ==> x == items[m]
    requires forall x :: x in items && Carries(x, b) ==> x == items[n]
    ensures ItemPrecedes(items, a, b) <==> m < n
  {
    forall j: nat, k: nat | j < k < |items| && Carries(items[j], a) && Carries(items[k], b) ensures m < n {
      assert items[j] in items && items[k] in items;
    }
  }

  lemma OneItemEach(task: string, stamp: string, created: string, plan: seq<Action>, x: Item, j: nat)
    requires NoRepeats(plan) && j < |plan| && Carries(x, plan[j])
    requires exists k: nat :: k < |plan| && x == NewItem(task, stamp, created, plan, k)
    ensures x == NewItem(task, stamp, created, plan, j)
  {
    var k: nat :| k < |plan| && x == NewItem(task, stamp, created, plan, k);
    assert plan[k] == plan[j];
  }

  /** The listing puts no move after a delete above it exactly if the texts of the indexes do not. */
  lemma ListingOrderExactly(before: Table, after: Table, task: string, stamp: string, created: string,
                            plan: seq<Action>, items: seq<Item>)
    requires FreshListing(before, after, task, stamp, created, plan, items)
    ensures MovesBeforeDeletes(QueuedActions(items)) <==> TextOrderOk(plan)
  {
    var acts := QueuedActions(items);
    FreshQueueSchedule(before, after, task, stamp, created, plan, items);
    forall j: nat, k: nat | j < |plan| && k < |plan| && j != k
      ensures Precedes(acts, plan[j], plan[k]) <==> LateInText(plan, j, k)
    {
      DrainedInTextOrder(before, after, task, stamp, created, plan, items, j, k);
    }
    TextOrderCarries(plan, acts);
  }

  // The same for any listing of the plan's actions in the order of their indexes' texts.
  lemma TextOrderCarries(plan: seq<Action>, acts: seq<Action>)
    requires CarriesOut(plan, acts) && NoRepeats(acts)
    requires forall j: nat, k: nat :: j < |plan| && k < |plan| && j != k ==>
               (Precedes(acts, plan[j], plan[k]) <==> LateInText(plan, j, k))
    ensures MovesBeforeDeletes(acts) <==> TextOrderOk(plan)
  {
    forall m, n | 0 <= m < n < |acts| ensures !OccursBy(acts, m, acts[n]) && Precedes(acts, acts[m], acts[n]) {
      assert forall k :: 0 <= k <= m ==> acts[k] != acts[n];
    }
    forall m, n | 0 <= m < n < |acts| && DeletesUnder(acts[m], acts[n])
      ensures exists j: nat, k: nat :: j < |plan| && k < |plan| && LateInText(plan, j, k)
                                       && plan[j] == acts[m] && plan[k] == acts[n]
    {
      assert acts[m] in plan && acts[n] in plan;
      var j: nat :| j < |plan| && plan[j] == acts[m];
      var k: nat :| k < |plan| && plan[k] == acts[n];
      assert LateInText(plan, j, k);
    }
  }

  /** Up to ten actions are drained in the planner's order, in which the moves come first. */
  lemma TenActionsInOrder(plan: seq<Action>)
    requires |plan| <= 10 && MovesLead(plan)
    ensures TextOrderOk(plan)
  {
    forall j: nat, k: nat | j < |plan| && k < |plan| && LateInText(plan, j, k) ensures j < k {
      assert Decimal(j) == [Digit(j)] && Decimal(k) == [Digit(k)];
      assert !TextLess(Decimal(j)[1..], Decimal(k)[1..]);
      assert Digit(j) < Digit(k);
    }
  }

  // ---- draining a fresh queue ---------------------------------------------------------------------

  /** Nothing executable of the task is in the table, and the trees are snapshots. */
  ghost predicate Fresh(task: Task, s: System, taskId: string) {
    && (task.direction == Bidirectional ==> task.policy != KeepBoth)
    && PrefixClosed(s.sides.local) && PrefixClosed(s.sides.remote)
    && forall id :: id in s.rows && s.rows[id].task == taskId ==> !Executable(s.rows[id])
  }

  /** The trees a task is to leave: equal ones, or the target of its direction. */
  ghost predicate Reached(task: Task, before: Sides, after: Sides) {
    match task.direction
    case UploadOnly => after == Sides(before.local, UploadTarget(task, before.local, before.remote))
    case DownloadOnly => after == Sides(DownloadTarget(task, before.local, before.remote), before.remote)
    case Bidirectional => after.local == after.remote
  }

  /** What that takes in one drain. */
  ghost predicate Reachable(task: Task, s: System, plan: seq<Action>) {
    && NoClash(s.sides.local, s.sides.remote)
    && (task.direction == Bidirectional ==>
          && DeletesWholeDirs(task, s.sides.local, s.sides.remote, s.index)
          && NoMoveIntoDeletes(task, s.sides.local, s.sides.remote, s.index, plan)
          && TextOrderOk(plan))
  }

  /** No fault befalls the first attempt at any of the plan's items. */
  ghost predicate FaultFree(stamp: string, plan: seq<Action>, faults: string -> Fault) {
    forall k: nat :: k < |plan| ==> faults(ItemId(stamp, k)) == Healthy
  }

  lemma FaultFreeIsHealthy(before: Table, after: Table, task: string, stamp: string, created: string,
                           plan: seq<Action>, items: seq<Item>, faults: string -> Fault)
    requires FreshListing(before, after, task, stamp, created, plan, items)
    ensures AllHealthy(items, faults) <==> FaultFree(stamp, plan, faults)
  {
    FreshQueueSchedule(before, after, task, stamp, created, plan, items);
    forall k: nat | k < |plan| && AllHealthy(items, faults) ensures faults(ItemId(stamp, k)) == Healthy {
      var m := NewItemListed(before, after, task, stamp, created, plan, items, k);
      assert items[m] in items;
    }
  }

  /** Planning, enqueueing and draining on a fresh queue: the drain completes with the trees it is to leave
      exactly if no path clashes and no fault befalls an item, and, for a bidirectional task, nothing is
      kept below a deleted directory and the texts of the plan's indexes put no move late. */
  lemma FreshPlanConvergesExactly(task: Task, before: System, queued: Table, taskId: string, stamp: string,
                                  created: string, plan: seq<Action>, items: seq<Item>,
                                  faults: string -> Fault, retryAt: string)
    requires Fresh(task, before, taskId)
    requires PlanOf(task, before.sides.local, before.sides.remote, before.index, plan)
    requires Enqueued(before.rows, queued, taskId, stamp, created, plan, |plan|) && TableOk(queued)
    requires Listing(queued, false, items)
    requires forall id :: Listed(items, id) <==> id in queued && queued[id].task == taskId
    ensures var r := DrainItems(before.(rows := queued), items, faults, retryAt);
            r.ok && Reached(task, before.sides, r.system.sides) <==>
            Reachable(task, before, plan) && FaultFree(stamp, plan, faults)
  {
    var l, r := before.sides.local, before.sides.remote;
    FreshQueueSchedule(before.rows, queued, taskId, stamp, created, plan, items);
    FaultFreeIsHealthy(before.rows, queued, taskId, stamp, created, plan, items, faults);
    match task.direction
    case UploadOnly =>
      DrainIsRun(before.(rows := queued), items, faults, retryAt);
      UploadExactly(task, l, r, QueuedActions(items));
    case DownloadOnly =>
      DrainIsRun(before.(rows := queued), items, faults, retryAt);
      DownloadExactly(task, l, r, QueuedActions(items));
    case Bidirectional =>
      QueueConvergesExactly(task, plan, before.(rows := queued), items, faults, retryAt);
      ListingOrderExactly(before.rows, queued, taskId, stamp, created, plan, items);
      NothingKeptExactly(task, l, r, before.index, plan);
  }
}
