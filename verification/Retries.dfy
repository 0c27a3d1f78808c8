/** Attempts at a plan's actions in any interleaving, with any faults and any repetitions: what they do
    to the trees, whether a reported success can be relied on, and when the trees converge. */
module Retries {
  import opened Trees
  import opened Actions
  import opened FileIndex
  import opened Planner
  import opened Convergence
  import opened OperationQueue
  import opened Execution

  /** What an attempt changes apart from the queue. */
  datatype Store = Store(sides: Sides, index: Index)

  /** One attempt at an action, with the attempt count of its item and what befalls it. */
  datatype Try = Try(action: Action, attempts: int, fault: Fault)

  datatype Report = Report(store: Store, ok: bool)

  /** The action is performed: the guard does not skip it and no fault comes first. */
  predicate Effective(s: Store, t: Try) {
    !Skips(s.index, t.attempts, t.action) && !t.fault.LostBefore?
  }

  predicate Lands(s: Store, t: Try) {
    Effective(s, t) && Apply(t.action, s.sides).Done?
  }

  function TryOnce(s: Store, t: Try): Report {
    if Skips(s.index, t.attempts, t.action) then Report(s, true)
    else if t.fault.LostBefore? then Report(s, false)
    else
      match Apply(t.action, s.sides)
      case Failed(u) => Report(s.(sides := u), false)
      case Done(u) =>
        if t.fault.LostAfter? then Report(s.(sides := u), false)
        else Report(Store(u, WriteResult(s.index, t.action)), true)
  }

  function StoreOf(s: System): Store {
    Store(s.sides, s.index)
  }

  lemma ExecuteIsTry(s: System, item: Item, a: Action, fault: Fault)
    ensures var r := Execute(s, item, a, fault);
            TryOnce(StoreOf(s), Try(a, item.attempts, fault)) == Report(StoreOf(r.system), r.ok)
  {
  }

  function AfterTries(s: Store, tries: seq<Try>): Store {
    if tries == [] then s else TryOnce(AfterTries(s, tries[..|tries| - 1]), tries[|tries| - 1]).store
  }

  /** The actions the attempts perform, in order. */
  function Performed(s: Store, tries: seq<Try>): seq<Action> {
    if tries == [] then []
    else
      var n := |tries| - 1;
      Performed(s, tries[..n]) + if Effective(AfterTries(s, tries[..n]), tries[n]) then [tries[n].action] else []
  }

  /** Attempt k is reported as a success. */
  predicate Reported(s: Store, tries: seq<Try>, k: nat)
    requires k < |tries|
  {
    TryOnce(AfterTries(s, tries[..k]), tries[k]).ok
  }

  predicate LandsAt(s: Store, tries: seq<Try>, k: nat)
    requires k < |tries|
  {
    Lands(AfterTries(s, tries[..k]), tries[k])
  }

  ghost predicate EverReported(s: Store, tries: seq<Try>, a: Action) {
    exists k :: 0 <= k < |tries| && tries[k].action == a && Reported(s, tries, k)
  }

  /** The action took effect at one of the attempts. */
  ghost predicate Landed(s: Store, tries: seq<Try>, a: Action) {
    exists k :: 0 <= k < |tries| && tries[k].action == a && LandsAt(s, tries, k)
  }

  ghost predicate DrawnFrom(plan: seq<Action>, tries: seq<Try>) {
    forall t :: t in tries ==> t.action in plan
  }

  // ---- attempts perform actions -------------------------------------------------------------------

  lemma PerformSnoc(acts: seq<Action>, a: Action, s: Sides)
    ensures Perform(acts + [a], s) == Apply(a, Perform(acts, s)).sides
  {
    assert (acts + [a])[..|acts|] == acts;
  }

  /** The trees after any attempts are those the performed actions lead to. */
  lemma {:induction false} TriesPerform(s: Store, tries: seq<Try>)
    ensures AfterTries(s, tries).sides == Perform(Performed(s, tries), s.sides)
  {
    if tries != [] {
      var n := |tries| - 1;
      TriesPerform(s, tries[..n]);
      TrySides(AfterTries(s, tries[..n]), tries[n]);
      PerformSnoc(Performed(s, tries[..n]), tries[n].action, s.sides);
      assert Performed(s, tries[..n]) + [] == Performed(s, tries[..n]);
    }
  }

  lemma TrySides(s: Store, t: Try)
    ensures TryOnce(s, t).store.sides == if Effective(s, t) then Apply(t.action, s.sides).sides else s.sides
  {
  }

  lemma PrefixTry(s: Store, tries: seq<Try>, n: nat, k: nat)
    requires k < n <= |tries|
    ensures tries[..n][k] == tries[k] && tries[..n][..k] == tries[..k]
    ensures LandsAt(s, tries[..n], k) <==> LandsAt(s, tries, k)
    ensures Reported(s, tries[..n], k) <==> Reported(s, tries, k)
  {
    assert tries[..n][..k] == tries[..k];
  }

  lemma PrefixLands(s: Store, tries: seq<Try>, n: nat, k: nat)
    requires k < n <= |tries|
    ensures tries[..n][k] == tries[k] && (LandsAt(s, tries[..n], k) <==> LandsAt(s, tries, k))
  {
    PrefixTry(s, tries, n, k);
  }

  lemma LandedEarlier(s: Store, tries: seq<Try>, n: nat, a: Action)
    requires n <= |tries| && Landed(s, tries[..n], a)
    ensures Landed(s, tries, a)
  {
    var k :| 0 <= k < n && tries[..n][k].action == a && LandsAt(s, tries[..n], k);
    PrefixLands(s, tries, n, k);
    assert tries[k].action == a && LandsAt(s, tries, k);
  }

  lemma LandedSplit(s: Store, tries: seq<Try>, a: Action)
    requires tries != [] && Landed(s, tries, a)
    ensures var n := |tries| - 1;
            Landed(s, tries[..n], a) || (tries[n].action == a && LandsAt(s, tries, n))
  {
    var n := |tries| - 1;
    var k :| 0 <= k < |tries| && tries[k].action == a && LandsAt(s, tries, k);
    if k < n {
      var front := tries[..n];
      PrefixLands(s, tries, n, k);
      assert front[k].action == a && LandsAt(s, front, k);
      assert Landed(s, front, a);
    } else {
      assert k == n;
    }
  }

  lemma LandedLast(s: Store, tries: seq<Try>, a: Action)
    requires tries != []
    ensures var n := |tries| - 1;
            Landed(s, tries, a) <==> Landed(s, tries[..n], a) || (tries[n].action == a && LandsAt(s, tries, n))
  {
    var n := |tries| - 1;
    if Landed(s, tries, a) {
      LandedSplit(s, tries, a);
    } else {
      assert Landed(s, tries[..n], a) ==> Landed(s, tries, a) by {
        if Landed(s, tries[..n], a) { LandedEarlier(s, tries, n, a); }
      }
    }
  }

  lemma TookEffectSnoc(acts: seq<Action>, b: Action, s: Sides, a: Action)
    ensures TookEffect(acts + [b], s, a) <==> TookEffect(acts, s, a) || (a == b && Apply(b, Perform(acts, s)).Done?)
  {
    var all, n := acts + [b], |acts|;
    assert all[..n] == acts && all[n] == b;
    forall k | 0 <= k < n ensures all[k] == acts[k] && (TakesEffect(all, s, k) <==> TakesEffect(acts, s, k)) {
      assert all[..k] == acts[..k];
    }
    assert TakesEffect(all, s, n) <==> Apply(b, Perform(acts, s)).Done?;
    if k :| 0 <= k < n && acts[k] == a && TakesEffect(acts, s, k) {
      assert all[k] == a && TakesEffect(all, s, k);
    }
  }

  /** An action took effect at an attempt exactly if it did among the performed actions. */
  lemma {:induction false} LandedIsEffect(s: Store, tries: seq<Try>, a: Action)
    ensures Landed(s, tries, a) <==> TookEffect(Performed(s, tries), s.sides, a)
  {
    if tries != [] {
      var n := |tries| - 1;
      LandedIsEffect(s, tries[..n], a);
      LandedLast(s, tries, a);
      TriesPerform(s, tries[..n]);
      TookEffectSnoc(Performed(s, tries[..n]), tries[n].action, s.sides, a);
      EffectOfLast(s, tries);
    }
  }

  lemma EffectOfLast(s: Store, tries: seq<Try>)
    requires tries != []
    ensures var n := |tries| - 1;
            var before, t := AfterTries(s, tries[..n]), tries[n];
            && Performed(s, tries) ==
               (if Effective(before, t) then Performed(s, tries[..n]) + [t.action] else Performed(s, tries[..n]))
            && (LandsAt(s, tries, n) <==> Effective(before, t) && Apply(t.action, before.sides).Done?)
  {
  }

  lemma {:induction false} PerformedFrom(s: Store, tries: seq<Try>, a: Action)
    requires a in Performed(s, tries)
    ensures exists t :: t in tries && t.action == a
  {
    var n := |tries| - 1;
    assert tries == tries[..n] + [tries[n]];
    if a in Performed(s, tries[..n]) {
      PerformedFrom(s, tries[..n], a);
    } else {
      assert tries[n].action == a && tries[n] in tries;
    }
  }

  lemma TryIndex(s: Store, t: Try)
    ensures TryOnce(s, t).store.index == s.index || TryOnce(s, t).store.index == WriteResult(s.index, t.action)
    ensures Lands(s, t) && t.fault.Healthy? ==> TryOnce(s, t).store.index == WriteResult(s.index, t.action)
  {
  }

  lemma LandedIsWritten(s: Store, tries: seq<Try>, k: nat)
    requires k < |tries| && LandsAt(s, tries, k) && tries[k].fault.Healthy?
    ensures AfterTries(s, tries[..k + 1]).index == WriteResult(AfterTries(s, tries[..k]).index, tries[k].action)
  {
    assert tries[..k + 1][..k] == tries[..k] && tries[..k + 1][k] == tries[k];
  }

  // ---- one sequence of attempts after another -----------------------------------------------------

  lemma {:induction false} AfterBoth(s: Store, g: seq<Try>, h: seq<Try>)
    ensures AfterTries(s, g + h) == AfterTries(AfterTries(s, g), h)
  {
    if h == [] {
      assert g + h == g;
    } else {
      var n := |h| - 1;
      assert (g + h)[..|g| + n] == g + h[..n];
      AfterBoth(s, g, h[..n]);
    }
  }

  lemma ReportedInBoth(s: Store, g: seq<Try>, h: seq<Try>, a: Action)
    requires EverReported(s, g, a) || EverReported(AfterTries(s, g), h, a)
    ensures EverReported(s, g + h, a)
  {
    if EverReported(s, g, a) {
      var k :| 0 <= k < |g| && g[k].action == a && Reported(s, g, k);
      assert (g + h)[..|g|] == g;
      PrefixTry(s, g + h, |g|, k);
      assert (g + h)[k].action == a && Reported(s, g + h, k);
    } else {
      var k :| 0 <= k < |h| && h[k].action == a && Reported(AfterTries(s, g), h, k);
      assert (g + h)[..|g| + k] == g + h[..k] && (g + h)[|g| + k] == h[k];
      AfterBoth(s, g, h[..k]);
      assert Reported(s, g + h, |g| + k);
    }
  }

  // ---- rows and their owners ----------------------------------------------------------------------

  /** Each index row is written by one planned action only, or by the two halves of a conflict. */
  lemma RowsOwned(task: Task, l: Tree, r: Tree, i: Index, plan: seq<Action>, a: Action, b: Action, j: Index, p: Path)
    requires Partition(task, l, r, i, plan) && a in plan && b in plan
    requires Touches(j, Result(a), p) && Touches(j, Result(b), p)
    ensures a == b || (IsConflict(a) && IsConflict(b) && a.path == b.path == p)
  {
    assert MoveOf(l, r, i, a) && MoveOf(l, r, i, b);
    assert !a.IsMove() ==> !Consumed(plan, a.path) && a in Decide(task, l, r, i, a.path);
    assert !b.IsMove() ==> !Consumed(plan, b.path) && b in Decide(task, l, r, i, b.path);
  }

  lemma PlannedPath(task: Task, l: Tree, r: Tree, i: Index, plan: seq<Action>, a: Action)
    requires Setting(task, l, r, i, plan) && a in plan
    ensures a.path != []
  {
    assert MoveOf(l, r, i, a);
    if !a.IsMove() {
      PlannedBecause(task, l, r, i, plan, a);
    }
  }

  /** Until an action takes effect its row stays as it was, whatever else of the plan is attempted. */
  lemma {:induction false} RowUntilLanded(task: Task, l: Tree, r: Tree, i: Index, plan: seq<Action>,
                                          s: Store, tries: seq<Try>, a: Action)
    requires Setting(task, l, r, i, plan) && a in plan && !IsConflict(a) && DrawnFrom(plan, tries)
    requires !Landed(s, tries, a)
    ensures a.path in AfterTries(s, tries).index <==> a.path in s.index
    ensures Row(AfterTries(s, tries).index, a.path) == Row(s.index, a.path)
  {
    if tries != [] {
      var n := |tries| - 1;
      var before, t := AfterTries(s, tries[..n]), tries[n];
      LandedLast(s, tries, a);
      RowUntilLanded(task, l, r, i, plan, s, tries[..n], a);
      PlannedPath(task, l, r, i, plan, a);
      OthersKeepRow(task, l, r, i, plan, before, t, a);
    }
  }

  lemma OthersKeepRow(task: Task, l: Tree, r: Tree, i: Index, plan: seq<Action>, s: Store, t: Try, a: Action)
    requires Partition(task, l, r, i, plan) && a in plan && !IsConflict(a) && a.path != [] && t.action in plan
    requires t.action != a || !Lands(s, t)
    ensures var j := TryOnce(s, t).store.index;
            (a.path in j <==> a.path in s.index) && Row(j, a.path) == Row(s.index, a.path)
  {
    if Lands(s, t) {
      WriteEffect(s.index, Result(t.action), a.path);
      if Touches(s.index, Result(t.action), a.path) {
        RowsOwned(task, l, r, i, plan, a, t.action, s.index, a.path);
      }
    }
  }

  /** Once an action has been written back, its row's flags stay whatever else of the plan is attempted,
      further attempts at the action itself included, in any interleaving. */
  lemma {:induction false} WrittenRowStays(task: Task, l: Tree, r: Tree, i: Index, plan: seq<Action>,
                                           s: Store, tries: seq<Try>, a: Action)
    requires Setting(task, l, r, i, plan) && a in plan && !IsConflict(a) && DrawnFrom(plan, tries)
    requires SameRow(s.index, WriteResult(s.index, a), a.path)
    ensures SameRow(s.index, AfterTries(s, tries).index, a.path)
  {
    if tries != [] {
      var n := |tries| - 1;
      var before, t := AfterTries(s, tries[..n]), tries[n];
      WrittenRowStays(task, l, r, i, plan, s, tries[..n], a);
      PlannedPath(task, l, r, i, plan, a);
      if t.action != a {
        OthersKeepRow(task, l, r, i, plan, before, t, a);
      } else if a.IsMove() {
        MoveRowsAt(s.index, a.src, a.path, a.path);
        MoveRowsAt(before.index, a.src, a.path, a.path);
      } else {
        ResultRowRespectsFlags(Row(s.index, a.path), Row(before.index, a.path), a);
      }
    }
  }

  // ---- can a reported success be relied on --------------------------------------------------------

  /** The guard would take the row for the action's result before the action is ever performed. */
  predicate AtRisk(i: Index, a: Action) {
    IsConflict(a) || (a.path in i && ShowsResult(i[a.path], a))
  }

  /** Whenever an attempt at the action is reported as a success, the action has taken effect by then. */
  ghost predicate Truthful(s: Store, tries: seq<Try>, a: Action) {
    forall k :: 0 <= k < |tries| && tries[k].action == a && Reported(s, tries, k) ==> Landed(s, tries[..k + 1], a)
  }

  lemma TruthfulIf(task: Task, s: Store, plan: seq<Action>, tries: seq<Try>, a: Action)
    requires Setting(task, s.sides.local, s.sides.remote, s.index, plan) && a in plan && DrawnFrom(plan, tries)
    requires !AtRisk(s.index, a)
    ensures Truthful(s, tries, a)
  {
    forall k | 0 <= k < |tries| && tries[k].action == a && Reported(s, tries, k) ensures Landed(s, tries[..k + 1], a) {
      TruthfulAt(task, s, plan, tries, k);
    }
  }

  lemma TruthfulAt(task: Task, s: Store, plan: seq<Action>, tries: seq<Try>, k: nat)
    requires k < |tries| && Setting(task, s.sides.local, s.sides.remote, s.index, plan) && DrawnFrom(plan, tries)
    requires !AtRisk(s.index, tries[k].action) && Reported(s, tries, k)
    ensures Landed(s, tries[..k + 1], tries[k].action)
  {
    var upTo, a := tries[..k + 1], tries[k].action;
    assert upTo[..k] == tries[..k] && upTo[k] == tries[k];
    LandedLast(s, upTo, a);
    if !Landed(s, tries[..k], a) {
      RowUntilLanded(task, s.sides.local, s.sides.remote, s.index, plan, s, tries[..k], a);
      ReportedUnskipped(AfterTries(s, tries[..k]), tries[k]);
    }
  }

  lemma ReportedUnskipped(s: Store, t: Try)
    requires TryOnce(s, t).ok && !(t.action.path in s.index && ShowsResult(s.index[t.action.path], t.action))
    ensures Lands(s, t)
  {
  }

  /** The lossy success: an action whose row already looks like its result fails once without any effect,
      and its retry is reported as a success, still without any effect. */
  lemma LossySuccess(s: Store, a: Action, fault: Fault)
    requires a.path != [] && a.path in s.index && ShowsResult(s.index[a.path], a)
    ensures var tries := [Try(a, 0, LostBefore), Try(a, 1, fault)];
            && !Reported(s, tries, 0) && Reported(s, tries, 1)
            && AfterTries(s, tries) == s && !Landed(s, tries, a)
  {
    var first, second := Try(a, 0, LostBefore), Try(a, 1, fault);
    var tries := [first, second];
    assert tries[..1] == [first] && tries[..0] == [] && [first][..0] == [];
    assert AfterTries(s, [first]) == s && TryOnce(s, second) == Report(s, true);
    assert !LandsAt(s, tries, 0) && !LandsAt(s, tries, 1);
  }

  lemma ThreeTries(s: Store, x: Try, y: Try, z: Try, a: Action)
    requires x.action != a && TryOnce(s, x).store == TryOnce(TryOnce(s, x).store, y).store
    requires !Lands(TryOnce(s, x).store, y) && !Lands(TryOnce(s, x).store, z)
    ensures Reported(s, [x, y, z], 2) <==> TryOnce(TryOnce(s, x).store, z).ok
    ensures !Landed(s, [x, y, z], a)
  {
    var tries, s1 := [x, y, z], TryOnce(s, x).store;
    assert tries[..0] == [] && tries[..1] == [x] && tries[..2] == [x, y];
    assert [x][..0] == [] && [x, y][..1] == [x];
    assert AfterTries(s, [x]) == s1 && AfterTries(s, [x, y]) == s1;
    assert !LandsAt(s, tries, 1) && !LandsAt(s, tries, 2);
  }

  /** The other half of a keep_both pair, once written back, makes the guard skip this one. */
  lemma LossyHalf(s: Store, a: Action, b: Action, fault: Fault)
    requires IsConflict(a) && IsConflict(b) && a != b && a.path == b.path != [] && Apply(b, s.sides).Done?
    ensures var tries := [Try(b, 0, Healthy), Try(a, 0, LostBefore), Try(a, 1, fault)];
            Reported(s, tries, 2) && !Landed(s, tries, a)
  {
    var x, y, z := Try(b, 0, Healthy), Try(a, 0, LostBefore), Try(a, 1, fault);
    GuardRecognisesResult(s.index, b, 1);
    assert TryOnce(s, x).store.index == WriteResult(s.index, b);
    assert Skips(TryOnce(s, x).store.index, 1, a);
    ThreeTries(s, x, y, z, a);
  }

  /** Either half of a pair can be carried out on the planning trees if its copy's name is unused. */
  lemma OtherHalf(task: Task, s: Store, plan: seq<Action>, a: Action) returns (b: Action)
    requires Setting(task, s.sides.local, s.sides.remote, s.index, plan)
    requires FreshCopies(s.sides.local, s.sides.remote, plan)
    requires a in plan && IsConflict(a)
    ensures b in plan && IsConflict(b) && a != b && a.path == b.path && Apply(b, s.sides).Done?
  {
    var l, r, p := s.sides.local, s.sides.remote, a.path;
    PlannedBecause(task, l, r, s.index, plan, a);
    PlannedFor(task, l, r, s.index, plan, p);
    if a.ConflictLocal? {
      b :| b in plan && b.ConflictRemote? && b.path == p;
    } else {
      b :| b in plan && b.ConflictLocal? && b.path == p;
      CopyPlace(task, l, r, s.index, plan, b);
      WritableCopy(l, p, b.copy);
    }
  }

  lemma WritableCopy(t: Tree, p: Path, c: Path)
    requires PrefixClosed(t) && p in t && c != [] && c !in t
    requires forall d :: Inside(c, d) <==> Inside(p, d)
    ensures forall body :: WriteFile(t, c, body).FsOk?
  {
    forall d | d != [] && Covers(d, Parent(c)) ensures IsDir(At(t, d)) {
      assert Inside(c, d);
    }
    assert !IsDir(At(WithDirs(t, Parent(c)), c));
  }

  /** Three attempts report a half of a conflict for nothing: its other half has written their row. */
  lemma HalfUntruthful(task: Task, s: Store, plan: seq<Action>, a: Action) returns (tries: seq<Try>)
    requires Setting(task, s.sides.local, s.sides.remote, s.index, plan)
    requires FreshCopies(s.sides.local, s.sides.remote, plan)
    requires a in plan && IsConflict(a)
    ensures DrawnFrom(plan, tries) && !Truthful(s, tries, a)
  {
    var b := OtherHalf(task, s, plan, a);
    LossyHalf(s, a, b, Healthy);
    tries := [Try(b, 0, Healthy), Try(a, 0, LostBefore), Try(a, 1, Healthy)];
    assert tries[..3] == tries;
  }

  /** Two attempts do so where the row looks like the result from the start. */
  lemma RowUntruthful(s: Store, plan: seq<Action>, a: Action) returns (tries: seq<Try>)
    requires a in plan && a.path != [] && AtRisk(s.index, a) && !IsConflict(a)
    ensures DrawnFrom(plan, tries) && !Truthful(s, tries, a)
  {
    LossySuccess(s, a, Healthy);
    tries := [Try(a, 0, LostBefore), Try(a, 1, Healthy)];
    assert tries[..2] == tries;
  }

  /** Exactly which planned actions can be reported as a success without ever having been performed. */
  lemma TruthfulExactly(task: Task, s: Store, plan: seq<Action>, a: Action)
    requires Setting(task, s.sides.local, s.sides.remote, s.index, plan)
    requires FreshCopies(s.sides.local, s.sides.remote, plan)
    requires a in plan
    ensures (forall tries :: DrawnFrom(plan, tries) ==> Truthful(s, tries, a)) <==> !AtRisk(s.index, a)
  {
    if !AtRisk(s.index, a) {
      forall tries | DrawnFrom(plan, tries) ensures Truthful(s, tries, a) {
        TruthfulIf(task, s, plan, tries, a);
      }
    } else if IsConflict(a) {
      var tries := HalfUntruthful(task, s, plan, a);
    } else {
      PlannedPath(task, s.sides.local, s.sides.remote, s.index, plan, a);
      var tries := RowUntruthful(s, plan, a);
    }
  }

  /** A planned delete is never at risk. */
  lemma DeletesNotAtRisk(task: Task, l: Tree, r: Tree, i: Index, plan: seq<Action>, a: Action)
    requires Partition(task, l, r, i, plan) && a in plan && a.IsDelete()
    ensures !AtRisk(i, a)
  {
    PlannedBecause(task, l, r, i, plan, a);
  }

  // ---- convergence --------------------------------------------------------------------------------

  /** Attempts at planned actions in any interleaving, with any faults and repetitions, after which every
      planned action took effect: the trees are equal exactly under the three conditions, the third
      for the order in which the actions were performed. */
  lemma TriesConvergeExactly(task: Task, s: Store, plan: seq<Action>, tries: seq<Try>)
    requires Setting(task, s.sides.local, s.sides.remote, s.index, plan) && task.policy != KeepBoth
    requires DrawnFrom(plan, tries) && forall a :: a in plan ==> Landed(s, tries, a)
    ensures AfterTries(s, tries).sides.local == AfterTries(s, tries).sides.remote <==>
            && NoClash(s.sides.local, s.sides.remote) && NothingKeptUnderDeletes(s.sides.remote, plan)
            && MovesBeforeDeletes(Performed(s, tries))
  {
    var acts := Performed(s, tries);
    TriesPerform(s, tries);
    forall a | a in plan ensures TookEffect(acts, s.sides, a) {
      LandedIsEffect(s, tries, a);
    }
    forall a | a in acts ensures a in plan {
      PerformedFrom(s, tries, a);
    }
    assert forall a :: TookEffect(acts, s.sides, a) ==> a in acts;
    PerformConvergesExactly(task, s.sides.local, s.sides.remote, s.index, plan, acts);
    assert Sides(s.sides.local, s.sides.remote) == s.sides;
  }

  lemma ReportedLanded(task: Task, s: Store, plan: seq<Action>, tries: seq<Try>, a: Action)
    requires Setting(task, s.sides.local, s.sides.remote, s.index, plan) && DrawnFrom(plan, tries)
    requires EverReported(s, tries, a) && !AtRisk(s.index, a)
    ensures Landed(s, tries, a)
  {
    var k: nat :| k < |tries| && tries[k].action == a && Reported(s, tries, k);
    TruthfulAt(task, s, plan, tries, k);
    LandedEarlier(s, tries, k + 1, a);
  }
}
