/** The operation_queue table: its statements as methods of a table object, and the due list. */
module OperationQueue {
  import opened Trees
  import opened Actions
  import opened Text
  import opened Timestamps

  datatype Payload = Sync(action: Action) | BaselineSync

  /** Blank is the empty text that Enqueue and Reschedule replace. */
  datatype Status = Blank | Waiting | Queued | RetryWait | Executing | Succeeded | GaveUp
  {
    predicate Live() { Waiting? || Queued? || RetryWait? }
    predicate Terminal() { Succeeded? || GaveUp? }
  }

  /** A row. The two timestamp columns are text; an unset next_attempt_at is the empty text. */
  datatype Item = Item(
    id: string, task: string, op: Payload, priority: int,
    status: Status, attempts: int, next: string, created: string)

  type Table = map<string, Item>

  function OrDefault(s: Status): Status {
    if s.Blank? || s.Waiting? then Queued else s
  }

  // ---- the statements, as functions of the table --------------------------------------------------

  function Reschedule(t: Table, item: Item): Table {
    if item.id in t
    then t[item.id := t[item.id].(status := OrDefault(item.status), attempts := item.attempts, next := item.next)]
    else t
  }

  function SetStatus(t: Table, id: string, s: Status): Table {
    if id in t then t[id := t[id].(status := s)] else t
  }

  function ResetRetryable(t: Table, task: string): Table {
    map id | id in t ::
      if t[id].task == task && Stuck(t[id])
      then t[id].(status := Queued, next := "") else t[id]
  }

  /** Re-queueing the waiting or stuck rows among the given ones. */
  function RetrySome(t: Table, ids: set<string>): Table {
    map id | id in t ::
      if id in ids && Stuck(t[id])
      then t[id].(status := Queued, next := "") else t[id]
  }

  /** A row that waits for its retry or was left behind in execution. */
  predicate Stuck(item: Item) {
    item.status.RetryWait? || item.status.Executing?
  }

  ghost predicate TableOk(t: Table) {
    forall id :: id in t ==> t[id].id == id
  }

  // ---- the orders of the two listings -------------------------------------------------------------

  /** ORDER BY created_at, id; with byPriority, highest priority first. Both columns are text. */
  predicate Before(byPriority: bool, a: Item, b: Item) {
    if byPriority && a.priority != b.priority then a.priority > b.priority
    else if a.created != b.created then TextLess(a.created, b.created)
    else TextLess(a.id, b.id)
  }

  /** Created earlier or, at the same time, under the smaller id. */
  ghost predicate ByCreation(a: Item, b: Item) {
    TextLess(a.created, b.created) || (a.created == b.created && TextLess(a.id, b.id))
  }

  lemma BeforeTotal(byPriority: bool, a: Item, b: Item)
    requires a.id != b.id
    ensures Before(byPriority, a, b) || Before(byPriority, b, a)
  {
    TextTotal(a.created, b.created);
    TextTotal(a.id, b.id);
  }

  lemma BeforeTransitive(byPriority: bool, a: Item, b: Item, c: Item)
    requires Before(byPriority, a, b) && Before(byPriority, b, c)
    ensures Before(byPriority, a, c)
  {
    if TextLess(a.created, b.created) && TextLess(b.created, c.created) {
      TextTransitive(a.created, b.created, c.created);
    }
    if TextLess(a.id, b.id) && TextLess(b.id, c.id) { TextTransitive(a.id, b.id, c.id); }
    TextTotal(a.created, b.created);
    TextTotal(b.created, c.created);
  }

  ghost predicate FirstOf(t: Table, byPriority: bool, ids: set<string>, m: string)
    requires TableOk(t) && ids <= t.Keys
  {
    m in ids && forall y :: y in ids && y != m ==> Before(byPriority, t[m], t[y])
  }

  lemma {:induction false} FirstExists(t: Table, byPriority: bool, ids: set<string>) returns (m: string)
    requires TableOk(t) && ids <= t.Keys && ids != {}
    ensures FirstOf(t, byPriority, ids, m)
    decreases |ids|
  {
    var x :| x in ids;
    if ids == {x} {
      m := x;
    } else {
      var rest := ids - {x};
      assert ids == rest + {x};
      var y := FirstExists(t, byPriority, rest);
      BeforeTotal(byPriority, t[x], t[y]);
      if Before(byPriority, t[x], t[y]) {
        m := x;
        forall z | z in ids && z != x ensures Before(byPriority, t[x], t[z]) {
          if z != y { BeforeTransitive(byPriority, t[x], t[y], t[z]); }
        }
      } else {
        m := y;
      }
    }
  }

  /** items are rows of t in order, each at most once. */
  ghost predicate Listing(t: Table, byPriority: bool, items: seq<Item>)
    requires TableOk(t)
  {
    && (forall k :: 0 <= k < |items| ==> items[k].id in t && t[items[k].id] == items[k])
    && (forall j, k :: 0 <= j < k < |items| ==> items[j].id != items[k].id && Before(byPriority, items[j], items[k]))
  }

  predicate Listed(items: seq<Item>, id: string) {
    exists k :: 0 <= k < |items| && items[k].id == id
  }

  lemma ListingGrows(t: Table, byPriority: bool, items: seq<Item>, m: string)
    requires TableOk(t) && Listing(t, byPriority, items) && m in t && !Listed(items, m)
    requires forall k :: 0 <= k < |items| ==> Before(byPriority, items[k], t[m])
    ensures Listing(t, byPriority, items + [t[m]])
    ensures forall id :: Listed(items + [t[m]], id) <==> Listed(items, id) || id == m
  {
    var more := items + [t[m]];
    assert more[|items|] == t[m] && forall k :: 0 <= k < |items| ==> more[k] == items[k] && Listed(items, items[k].id);
    forall id | Listed(items, id) ensures Listed(more, id) {
      var k :| 0 <= k < |items| && items[k].id == id;
      assert more[k].id == id;
    }
  }

  // ---- the due list -------------------------------------------------------------------------------

  /** status IN (...) AND (next_attempt_at = '' OR next_attempt_at <= now), compared as text. */
  predicate Due(item: Item, now: string) {
    item.status.Live() && (item.next == "" || TextAtMost(item.next, now))
  }

  /** The row is queued, pending or waiting for its retry. */
  predicate InLine(item: Item) {
    item.status.Queued? || item.status.Waiting? || item.status.RetryWait?
  }

  /** What the text comparison means: no item due in a later second is listed, every live item due in
      an earlier second is, and within the second it is wrong exactly where one fraction extends the other. */
  lemma DueBySecond(item: Item, next: nat, now: nat)
    requires InRange(next) && InRange(now) && item.next == Format(next)
    ensures Due(item, Format(now)) ==> InLine(item) && next / NANOS <= now / NANOS
    ensures InLine(item) && next / NANOS < now / NANOS ==> Due(item, Format(now))
    ensures InLine(item) && next / NANOS == now / NANOS ==>
              (Due(item, Format(now)) <==> (next <= now) != Misordered(next, now))
  {
    DueWithinASecond(next, now);
    FormatNotEmpty(next);
  }

  /** A manual retry of a task makes each of its stuck rows due at once, attempts kept, leaves none of its
      rows stuck, and touches no other row. */
  lemma ResetMakesDue(t: Table, task: string, now: string, id: string)
    requires id in t
    ensures var u := ResetRetryable(t, task);
            && id in u && u[id].attempts == t[id].attempts
            && (if t[id].task == task && t[id].status in {RetryWait, Executing}
                then Due(u[id], now) else u[id] == t[id])
            && (t[id].task == task ==> !Stuck(u[id]))
            && (t[id].status.Terminal() ==> u[id] == t[id])
  {
  }

  /** It is the retry of exactly the task's rows, and a second one changes nothing. */
  lemma ResetOnce(t: Table, task: string)
    ensures ResetRetryable(t, task) == RetrySome(t, set id | id in t && t[id].task == task)
    ensures ResetRetryable(ResetRetryable(t, task), task) == ResetRetryable(t, task)
  {
    var u := ResetRetryable(t, task);
    forall id | id in t ensures !Stuck(u[id]) || u[id].task != task {
      ResetMakesDue(t, task, "", id);
    }
    assert ResetRetryable(u, task) == u;
    assert u == RetrySome(t, set id | id in t && t[id].task == task);
  }

  class OperationQueueTable {
    var rows: Table

    constructor ()
      ensures rows == map[]
    {
      rows := map[];
    }

    method Enqueue(item: Item) returns (ok: bool)
      modifies this
      ensures ok <==> item.id !in old(rows)
      ensures rows == if ok then old(rows)[item.id := item.(status := OrDefault(item.status))] else old(rows)
      ensures ok ==> rows[item.id].status == if item.status in {Blank, Waiting} then Queued else item.status
    {
      ok := item.id !in rows;
      if ok {
        rows := rows[item.id := item.(status := OrDefault(item.status))];
      }
    }

    method RescheduleItem(item: Item) returns (ok: bool)
      modifies this
      ensures ok <==> item.id in old(rows)
      ensures rows == Reschedule(old(rows), item)
      ensures ok ==> rows[item.id].status == if item.status in {Blank, Waiting} then Queued else item.status
      ensures ok ==> rows[item.id].attempts == item.attempts && rows[item.id].next == item.next
      ensures ok ==> rows[item.id] == old(rows)[item.id].(
                       status := rows[item.id].status, attempts := item.attempts, next := item.next)
      ensures rows.Keys == old(rows).Keys && forall id :: id in rows && id != item.id ==> rows[id] == old(rows)[id]
    {
      ok := item.id in rows;
      if ok {
        var row := rows[item.id];
        rows := rows[item.id := row.(status := OrDefault(item.status), attempts := item.attempts, next := item.next)];
      }
    }

    method Dequeue(id: string) returns (ok: bool)
      modifies this
      ensures ok <==> id in old(rows)
      ensures rows == SetStatus(old(rows), id, Succeeded) && rows.Keys == old(rows).Keys
      ensures ok ==> rows[id].status.Terminal() && rows[id].attempts == old(rows)[id].attempts
      ensures forall m :: m in rows && m != id ==> rows[m] == old(rows)[m]
    {
      ok := id in rows;
      rows := SetStatus(rows, id, Succeeded);
    }

    method MarkFailed(id: string) returns (ok: bool)
      modifies this
      ensures ok <==> id in old(rows)
      ensures rows == SetStatus(old(rows), id, GaveUp) && rows.Keys == old(rows).Keys
      ensures ok ==> rows[id].status.Terminal() && rows[id].attempts == old(rows)[id].attempts
      ensures forall m :: m in rows && m != id ==> rows[m] == old(rows)[m]
    {
      ok := id in rows;
      rows := SetStatus(rows, id, GaveUp);
    }

    method ResetRetryableByTaskID(task: string) returns (affected: nat)
      modifies this
      ensures rows == ResetRetryable(old(rows), task) && rows.Keys == old(rows).Keys
      ensures forall id :: id in rows && (old(rows)[id].task != task || !Stuck(old(rows)[id])) ==>
                rows[id] == old(rows)[id]
      ensures affected == |set id | id in old(rows) && old(rows)[id].task == task && Stuck(old(rows)[id])|
    {
      affected := |set id | id in rows && rows[id].task == task && Stuck(rows[id])|;
      rows := ResetRetryable(rows, task);
    }

    method InOrder(ids: set<string>, byPriority: bool) returns (items: seq<Item>)
      requires TableOk(rows) && ids <= rows.Keys
      ensures Listing(rows, byPriority, items)
      ensures forall id :: Listed(items, id) <==> id in ids
    {
      items := [];
      var todo := ids;
      while todo != {}
        invariant todo <= ids
        invariant Listing(rows, byPriority, items)
        invariant forall id :: Listed(items, id) <==> id in ids - todo
        invariant forall k, y :: 0 <= k < |items| && y in todo ==> Before(byPriority, items[k], rows[y])
      {
        ghost var first := FirstExists(rows, byPriority, todo);
        var m :| m in todo && forall y :: y in todo && y != m ==> Before(byPriority, rows[m], rows[y]);
        todo := todo - {m};
        ListingGrows(rows, byPriority, items, m);
        items := items + [rows[m]];
      }
    }

    method ListByTaskID(task: string) returns (items: seq<Item>)
      requires TableOk(rows)
      ensures Listing(rows, false, items)
      ensures forall id :: Listed(items, id) <==> id in rows && rows[id].task == task
      ensures forall j, k :: 0 <= j < k < |items| ==> ByCreation(items[j], items[k])
    {
      items := InOrder(set id | id in rows && rows[id].task == task, false);
    }

    /** The due rows in order; rows are left out only at the limit and only from the end of the order. */
    method ListDue(now: string, limit: int) returns (items: seq<Item>)
      requires TableOk(rows)
      ensures Listing(rows, true, items)
      ensures |items| <= if limit <= 0 then 64 else limit
      ensures forall k :: 0 <= k < |items| ==> Due(items[k], now)
      ensures forall j, k :: 0 <= j < k < |items| ==>
                items[j].priority > items[k].priority
                || (items[j].priority == items[k].priority && ByCreation(items[j], items[k]))
      ensures forall id :: id in rows && Due(rows[id], now) && !Listed(items, id) ==>
                && |items| == (if limit <= 0 then 64 else limit)
                && forall k :: 0 <= k < |items| ==> Before(true, items[k], rows[id])
    {
      var most := if limit <= 0 then 64 else limit;
      var all := InOrder(set id | id in rows && Due(rows[id], now), true);
      items := if |all| <= most then all else all[..most];
      forall k | 0 <= k < |all| ensures Due(all[k], now) {
        assert Listed(all, all[k].id);
      }
      forall id | id in rows && Due(rows[id], now) && !Listed(items, id)
        ensures |items| == most && forall k :: 0 <= k < |items| ==> Before(true, items[k], rows[id])
      {
        assert Listed(all, id);
        var n :| 0 <= n < |all| && all[n].id == id;
        assert forall k :: 0 <= k < |items| ==> items[k] == all[k] && Listed(items, all[k].id);
      }
    }
  }
}
