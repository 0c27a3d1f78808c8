/** Draining a task's action items in list order, stopping at the first failure. */
module Drain {
  import opened Trees
  import opened Actions
  import opened FileIndex
  import opened OperationQueue
  import opened Execution
  import opened Planner
  import opened Convergence

  predicate Executable(item: Item) {
    item.op.Sync? && item.status.Live()
  }

  /** The item is yet to be executed and its action is a. */
  predicate Carries(item: Item, a: Action) {
    Executable(item) && item.op.action == a
  }

  /** The drain of executePlannedActions; faults says what befalls the attempt at each item, and
      retryAt is the timestamp a failed item gets. */
  function DrainItems(s: System, items: seq<Item>, faults: string -> Fault, retryAt: string): Attempt
    decreases |items|
  {
    if items == [] then Attempt(s, true)
    else if !Executable(items[0]) then DrainItems(s, items[1..], faults, retryAt)
    else
      var item := items[0];
      var r := Execute(s, item, item.op.action, faults(item.id));
      if r.ok then DrainItems(Completed(r.system, item), items[1..], faults, retryAt)
      else Attempt(Degraded(r.system, item, retryAt), false)
  }

  function Completed(s: System, item: Item): System {
    s.(rows := SetStatus(s.rows, item.id, Succeeded))
  }

  function Degraded(s: System, item: Item, retryAt: string): System {
    s.(rows := Reschedule(s.rows, ForRetry(item, retryAt)))
  }

  ghost predicate Current(t: Table, items: seq<Item>) {
    && (forall k :: 0 <= k < |items| ==> items[k].id in t && t[items[k].id] == items[k])
    && (forall j, k :: 0 <= j < k < |items| ==> items[j].id != items[k].id)
  }

  lemma ExecuteRows(s: System, item: Item, a: Action, fault: Fault, id: string)
    requires item.id in s.rows && s.rows[item.id] == item
    ensures var t := Execute(s, item, a, fault).system.rows;
            && t.Keys == s.rows.Keys
            && (id in t && id != item.id ==> t[id] == s.rows[id])
            && t[item.id] == if Skips(s.index, item.attempts, a) then item else item.(status := Executing)
  {
  }

  /** The row after a failed attempt in a drain. */
  function ForRetry(item: Item, retryAt: string): Item {
    item.(attempts := item.attempts + 1, status := RetryWait, next := retryAt)
  }

  predicate ToRun(item: Item) {
    item.op.Sync? && InLine(item)
  }

  /** None of the items up to k is to run and has the id. */
  predicate Untouched(items: seq<Item>, k: nat, id: string) {
    forall j :: 0 <= j <= k && j < |items| && ToRun(items[j]) ==> items[j].id != id
  }

  /** Either every item that is to run ends succeeded, or there is a first failing item k: those that were
      to run before it succeeded, it waits for a retry with one more attempt, those after it are
      unchanged. Nothing disappears and no other row changes. */
  ghost predicate StopsAt(before: Table, items: seq<Item>, retryAt: string, r: Attempt, k: nat) {
    && k <= |items| && (r.ok <==> k == |items|)
    && r.system.rows.Keys == before.Keys
    && (forall j :: 0 <= j < k && ToRun(items[j]) && items[j].id in before ==>
          r.system.rows[items[j].id] == items[j].(status := Succeeded))
    && (k < |items| && items[k].id in before ==>
          && ToRun(items[k])
          && r.system.rows[items[k].id] ==
             items[k].(attempts := items[k].attempts + 1, status := RetryWait, next := retryAt))
    && (forall id :: id in before && Untouched(items, k, id) ==> r.system.rows[id] == before[id])
  }

  lemma {:induction false} DrainStopsCleanly(s: System, items: seq<Item>, faults: string -> Fault, retryAt: string)
    returns (k: nat)
    requires Current(s.rows, items)
    ensures StopsAt(s.rows, items, retryAt, DrainItems(s, items, faults, retryAt), k)
    decreases |items|
  {
    if items == [] {
      k := 0;
    } else {
      var item, rest := items[0], items[1..];
      assert forall j :: 0 <= j < |rest| ==> rest[j] == items[j + 1] && rest[j].id != item.id;
      if !Executable(item) {
        k := DrainStopsCleanly(s, rest, faults, retryAt);
        k := StopsLater(s.rows, items, retryAt, DrainItems(s, rest, faults, retryAt), s.rows, k);
      } else {
        var r := Execute(s, item, item.op.action, faults(item.id));
        forall id ensures id in s.rows && id != item.id ==> id in r.system.rows && r.system.rows[id] == s.rows[id] {
          ExecuteRows(s, item, item.op.action, faults(item.id), id);
        }
        ExecuteRows(s, item, item.op.action, faults(item.id), item.id);
        if r.ok {
          var s1 := Completed(r.system, item);
          assert Current(s1.rows, rest);
          k := DrainStopsCleanly(s1, rest, faults, retryAt);
          k := StopsLater(s.rows, items, retryAt, DrainItems(s1, rest, faults, retryAt), s1.rows, k);
        } else {
          k := 0;
        }
      }
    }
  }

  // The drain of the rest, seen from the whole list.
  lemma StopsLater(before: Table, items: seq<Item>, retryAt: string, r: Attempt, after: Table, k0: nat) returns (k: nat)
    requires Current(before, items) && items != []
    requires after == (if ToRun(items[0]) then before[items[0].id := items[0].(status := Succeeded)] else before)
    requires StopsAt(after, items[1..], retryAt, r, k0)
    ensures k == k0 + 1 && StopsAt(before, items, retryAt, r, k)
  {
    k := k0 + 1;
    var rest := items[1..];
    assert forall j :: 0 <= j < |rest| ==> rest[j] == items[j + 1];
    assert after.Keys == before.Keys;
    forall j | 0 <= j < k && ToRun(items[j]) ensures r.system.rows[items[j].id] == items[j].(status := Succeeded) {
      if j == 0 {
        forall m | 0 <= m <= k0 && m < |rest| && ToRun(rest[m]) ensures rest[m].id != items[0].id {
          assert items[0].id != items[m + 1].id;
        }
        assert r.system.rows[items[0].id] == after[items[0].id];
      } else {
        assert items[j] == rest[j - 1] && items[j].id in after;
      }
    }
    forall id | id in before && Untouched(items, k, id)
      ensures r.system.rows[id] == before[id]
    {
      forall m | 0 <= m <= k0 && m < |rest| && ToRun(rest[m]) ensures rest[m].id != id {
        assert ToRun(items[m + 1]);
      }
      assert after[id] == before[id];
    }
  }

  // ---- a drain of new items is a run of their actions in list order -------------------------------

  function QueuedActions(items: seq<Item>): seq<Action> {
    if items == [] then []
    else (if Executable(items[0]) then [items[0].op.action] else []) + QueuedActions(items[1..])
  }

  ghost predicate FirstAttempts(items: seq<Item>) {
    forall item :: item in items && Executable(item) ==> item.attempts <= 0
  }

  ghost predicate AllHealthy(items: seq<Item>, faults: string -> Fault) {
    forall item :: item in items && Executable(item) ==> faults(item.id) == Healthy
  }

  /** A drain of first attempts completes exactly if the run of their actions in list order succeeds and
      no fault befalls one of them; then it has done what the run does. */
  lemma {:induction false} DrainIsRun(s: System, items: seq<Item>, faults: string -> Fault, retryAt: string)
    requires FirstAttempts(items)
    ensures var r, o := DrainItems(s, items, faults, retryAt), Run(QueuedActions(items), s.sides);
            && (r.ok <==> o.Done? && AllHealthy(items, faults))
            && (r.ok ==> r.system.sides == o.sides)
    decreases |items|
  {
    if items != [] {
      var item, rest := items[0], items[1..];
      assert item in items && forall x :: x in items <==> x == item || x in rest;
      if Executable(item) {
        RunCons(item.op.action, QueuedActions(rest), s.sides);
        var r := Execute(s, item, item.op.action, faults(item.id));
        if r.ok {
          DrainIsRun(Completed(r.system, item), rest, faults, retryAt);
        }
      } else {
        DrainIsRun(s, rest, faults, retryAt);
        assert QueuedActions(items) == QueuedActions(rest);
      }
    }
  }

  /** The exact condition for convergence in one drain, whose order is that of the rows' texts and not
      that of the plan. */
  lemma QueueConvergesExactly(task: Task, plan: seq<Action>, s: System, items: seq<Item>,
                              faults: string -> Fault, retryAt: string)
    requires Setting(task, s.sides.local, s.sides.remote, s.index, plan) && task.policy != KeepBoth
    requires Schedule(plan, QueuedActions(items)) && FirstAttempts(items)
    ensures var r := DrainItems(s, items, faults, retryAt);
            (r.ok && r.system.sides.local == r.system.sides.remote) <==>
            (&& NoClash(s.sides.local, s.sides.remote) && NothingKeptUnderDeletes(s.sides.remote, plan)
             && MovesBeforeDeletes(QueuedActions(items)) && AllHealthy(items, faults))
  {
    DrainIsRun(s, items, faults, retryAt);
    ConvergesExactly(task, s.sides.local, s.sides.remote, s.index, plan, QueuedActions(items));
    assert Sides(s.sides.local, s.sides.remote) == s.sides;
  }
}
