/** What the queue leaves for the next plan to merge over. Unlike a baseline run, attempts write only the rows
    of their own actions: when that is the common tree, and what goes wrong when it is not. */
module Bases {
  import opened Trees
  import opened Actions
  import opened FileIndex
  import opened Planner
  import opened Convergence
  import opened Conditions
  import opened Execution
  import opened Retries
  import opened ThreeWay

  /** Some action of the plan has a row for the path. */
  predicate RowWritten(plan: seq<Action>, p: Path) {
    exists a :: a in plan && (a.path == p || (a.IsMove() && a.src == p))
  }

  /** The action took effect at some attempt and was written back. */
  ghost predicate WrittenBack(s: Store, tries: seq<Try>, a: Action) {
    exists k :: 0 <= k < |tries| && tries[k].action == a && LandsAt(s, tries, k) && tries[k].fault.Healthy?
  }

  /** A row that no planned action has stays as it is. */
  lemma {:induction false} UnwrittenRowStays(s: Store, plan: seq<Action>, tries: seq<Try>, p: Path)
    requires DrawnFrom(plan, tries) && !RowWritten(plan, p)
    ensures p in AfterTries(s, tries).index <==> p in s.index
    ensures Row(AfterTries(s, tries).index, p) == Row(s.index, p)
  {
    if tries != [] {
      var n := |tries| - 1;
      assert tries[n] in tries && forall t :: t in tries[..n] ==> t in tries;
      UnwrittenRowStays(s, plan, tries[..n], p);
      var before, a := AfterTries(s, tries[..n]), tries[n].action;
      assert a in plan;
      TryIndex(before, tries[n]);
      WriteEffect(before.index, Result(a), p);
    }
  }

  /** What an action that was written back says of the paths it has rows for. */
  predicate Says(a: Action, i: Index, p: Path) {
    Known(i, p) <==> a.path == p && !a.IsDelete()
  }

  lemma WriteSays(i: Index, a: Action, p: Path)
    requires a.path != [] && !a.RefreshMetadata? && (a.path == p || (a.IsMove() && a.src == p))
    ensures Says(a, WriteResult(i, a), p)
  {
  }

  /** Writing back another planned action, or the same one again, does not unsay it. */
  lemma StillSays(task: Task, l: Tree, r: Tree, i: Index, plan: seq<Action>, j: Index, a: Action, b: Action, p: Path)
    requires Setting(task, l, r, i, plan) && task.policy != KeepBoth && a in plan && b in plan
    requires (a.path == p || (a.IsMove() && a.src == p)) && Says(a, j, p)
    ensures Says(a, WriteResult(j, b), p)
  {
    NoRefresh(task, l, r, i, plan, a);
    if b == a {
      PlannedPath(task, l, r, i, plan, a);
      WriteSays(j, a, p);
    } else {
      if Touches(j, Result(b), p) {
        PlannedPath(task, l, r, i, plan, a);
        RowsOwned(task, l, r, i, plan, a, b, j, p);
      }
      WriteEffect(j, Result(b), p);
    }
  }

  lemma {:induction false} WrittenSaysStill(task: Task, l: Tree, r: Tree, i: Index, plan: seq<Action>, s: Store,
                                            tries: seq<Try>, a: Action, p: Path)
    requires Setting(task, l, r, i, plan) && task.policy != KeepBoth && DrawnFrom(plan, tries) && a in plan
    requires (a.path == p || (a.IsMove() && a.src == p)) && Says(a, s.index, p)
    ensures Says(a, AfterTries(s, tries).index, p)
  {
    if tries != [] {
      var n := |tries| - 1;
      assert tries[n] in tries && forall t :: t in tries[..n] ==> t in tries;
      WrittenSaysStill(task, l, r, i, plan, s, tries[..n], a, p);
      TryIndex(AfterTries(s, tries[..n]), tries[n]);
      StillSays(task, l, r, i, plan, AfterTries(s, tries[..n]).index, a, tries[n].action, p);
    }
  }

  lemma NoRefresh(task: Task, l: Tree, r: Tree, i: Index, plan: seq<Action>, a: Action)
    requires Partition(task, l, r, i, plan) && a in plan
    ensures !a.RefreshMetadata? && (task.policy != KeepBoth ==> !IsConflict(a))
  {
    if !a.IsMove() {
      PlannedBecause(task, l, r, i, plan, a);
    }
  }

  lemma RowWrittenSays(task: Task, s: Store, plan: seq<Action>, tries: seq<Try>, a: Action, p: Path)
    requires Setting(task, s.sides.local, s.sides.remote, s.index, plan) && task.policy != KeepBoth
    requires DrawnFrom(plan, tries) && a in plan && (a.path == p || (a.IsMove() && a.src == p))
    requires WrittenBack(s, tries, a)
    ensures Says(a, AfterTries(s, tries).index, p)
  {
    var k :| 0 <= k < |tries| && tries[k].action == a && LandsAt(s, tries, k) && tries[k].fault.Healthy?;
    var l, r := s.sides.local, s.sides.remote;
    var g, h := tries[..k + 1], tries[k + 1..];
    LandedIsWritten(s, tries, k);
    PlannedPath(task, l, r, s.index, plan, a);
    NoRefresh(task, l, r, s.index, plan, a);
    WriteSays(AfterTries(s, tries[..k]).index, a, p);
    assert tries == g + h && forall t :: t in h ==> t in tries;
    WrittenSaysStill(task, l, r, s.index, plan, AfterTries(s, g), h, a, p);
    AfterBoth(s, g, h);
  }

  /** Which rows a plan has, on the trees: all but those of paths that neither side has or both have alike. */
  lemma RowWrittenExactly(task: Task, l: Tree, r: Tree, i: Index, plan: seq<Action>, p: Path)
    requires Partition(task, l, r, i, plan) && task.policy != KeepBoth && !ClashAt(l, r, p)
    ensures RowWritten(plan, p) <==> At(l, p) != At(r, p) || IsDir(At(l, p))
    ensures RowWritten(plan, p) ==> p in l || p in r
  {
    if a :| a in plan && (a.path == p || (a.IsMove() && a.src == p)) {
      assert MoveOf(l, r, i, a);
      if !a.IsMove() {
        PlannedBecause(task, l, r, i, plan, a);
      }
    }
    if (At(l, p) != At(r, p) || IsDir(At(l, p))) && !Consumed(plan, p) {
      var d := Decide(task, l, r, i, p);
      assert |d| >= 1 && d[0] in d && d[0] in plan;
      DecisionNamesPath(task, l, r, i, p, d[0]);
    }
  }

  /** A path whose row was written is known afterwards exactly if both sides are to have it. */
  lemma WrittenKnown(task: Task, s: Store, plan: seq<Action>, tries: seq<Try>, p: Path)
    requires Setting(task, s.sides.local, s.sides.remote, s.index, plan) && task.policy != KeepBoth
    requires DrawnFrom(plan, tries) && forall a :: a in plan ==> WrittenBack(s, tries, a)
    requires RowWritten(plan, p)
    ensures Known(AfterTries(s, tries).index, p) <==> p in Target(task, s.sides.local, s.sides.remote, plan)
  {
    var l, r, i := s.sides.local, s.sides.remote, s.index;
    var a :| a in plan && (a.path == p || (a.IsMove() && a.src == p));
    RowWrittenSays(task, s, plan, tries, a, p);
    assert MoveOf(l, r, i, a);
    assert p in Target(task, l, r, plan) <==> At(Target(task, l, r, plan), p) != None;
    if a.IsMove() {
      MoveEndNotGone(task, l, r, i, plan, a);
      assert a.src == p ==> MovedFrom(plan, p);
    } else if a.IsDelete() {
      assert Gone(plan, p);
    } else {
      DecidedNotGone(task, l, r, i, plan, a);
      PlannedBecause(task, l, r, i, plan, a);
    }
  }

  /** Every file that both sides have alike is known, and nothing is that neither side has. */
  ghost predicate SettledRowsExact(l: Tree, r: Tree, i: Index) {
    forall p :: !IsDir(At(l, p)) && At(l, p) == At(r, p) ==> (Known(i, p) <==> p in l)
  }

  /** The index knows exactly what the tree holds. */
  ghost predicate KnowsExactly(i: Index, t: Tree) {
    forall p :: Known(i, p) <==> p in t
  }

  /** Once every action of a plan was written back, in any interleaving and with any faults on the way, the index
      knows exactly the tree that both sides are to have, if and only if it was exact before about the paths
      that need nothing: files that both sides have alike, and what neither side has. */
  lemma QueueKnowsExactly(task: Task, s: Store, plan: seq<Action>, tries: seq<Try>)
    requires Setting(task, s.sides.local, s.sides.remote, s.index, plan) && task.policy != KeepBoth
    requires NoClash(s.sides.local, s.sides.remote)
    requires DrawnFrom(plan, tries) && forall a :: a in plan ==> WrittenBack(s, tries, a)
    ensures KnowsExactly(AfterTries(s, tries).index, Target(task, s.sides.local, s.sides.remote, plan)) <==>
            SettledRowsExact(s.sides.local, s.sides.remote, s.index)
  {
    forall p ensures (Known(AfterTries(s, tries).index, p) <==> p in Target(task, s.sides.local, s.sides.remote, plan))
                     <==> IsDir(At(s.sides.local, p)) || At(s.sides.local, p) != At(s.sides.remote, p)
                          || (Known(s.index, p) <==> p in s.sides.local)
    {
      KnownAfterwards(task, s, plan, tries, p);
    }
  }

  lemma KnownAfterwards(task: Task, s: Store, plan: seq<Action>, tries: seq<Try>, p: Path)
    requires Setting(task, s.sides.local, s.sides.remote, s.index, plan) && task.policy != KeepBoth
    requires !ClashAt(s.sides.local, s.sides.remote, p)
    requires DrawnFrom(plan, tries) && forall a :: a in plan ==> WrittenBack(s, tries, a)
    ensures (Known(AfterTries(s, tries).index, p) <==> p in Target(task, s.sides.local, s.sides.remote, plan)) <==>
            IsDir(At(s.sides.local, p)) || At(s.sides.local, p) != At(s.sides.remote, p)
            || (Known(s.index, p) <==> p in s.sides.local)
  {
    var l, r := s.sides.local, s.sides.remote;
    RowWrittenExactly(task, l, r, s.index, plan, p);
    if RowWritten(plan, p) {
      WrittenKnown(task, s, plan, tries, p);
    } else {
      UnwrittenRowStays(s, plan, tries, p);
      GoneOf(task, l, r, s.index, plan, p);
      assert p in Target(task, l, r, plan) <==> At(Target(task, l, r, plan), p) != None;
    }
  }

  /** What an inexact row costs, first: a path that both sides have removed stays known through every drain
      in which neither side has it. A new file that one side puts there later is taken for one that the other
      side removed, and every plan with mirror deletes it, unless a move joins it with an equal file. */
  lemma NewFileAtRemovedPath(task: Task, s: Store, plan: seq<Action>, tries: seq<Try>, l: Tree, r: Tree,
                             again: seq<Action>, p: Path)
    requires Setting(task, s.sides.local, s.sides.remote, s.index, plan) && task.policy != KeepBoth
    requires DrawnFrom(plan, tries) && p !in s.sides.local && p !in s.sides.remote && Known(s.index, p)
    requires Partition(task, l, r, AfterTries(s, tries).index, again) && !Consumed(again, p)
    requires task.direction == Bidirectional && task.mirror
    ensures LocalOnlyFile(l, r, p) ==> DeleteLocal(p, false) in again
    ensures LocalOnlyFile(r, l, p) ==> DeleteRemote(p, false) in again
  {
    RowWrittenExactly(task, s.sides.local, s.sides.remote, s.index, plan, p);
    UnwrittenRowStays(s, plan, tries, p);
    DeletesExactly(task, l, r, AfterTries(s, tries).index, again, p);
  }

  /** Second: a file that both sides got alike stays unknown through every drain in which they have it alike.
      When one side removes it, every plan brings it back, mirror or not, unless a move joins it. */
  lemma RemovedFileComesBack(task: Task, s: Store, plan: seq<Action>, tries: seq<Try>, l: Tree, r: Tree,
                             again: seq<Action>, p: Path)
    requires Setting(task, s.sides.local, s.sides.remote, s.index, plan) && task.policy != KeepBoth
    requires DrawnFrom(plan, tries) && !Known(s.index, p)
    requires IsFile(At(s.sides.local, p)) && At(s.sides.local, p) == At(s.sides.remote, p)
    requires Partition(task, l, r, AfterTries(s, tries).index, again) && !Consumed(again, p)
    ensures LocalOnlyFile(l, r, p) ==> UploadFile(p) in again
    ensures LocalOnlyFile(r, l, p) ==> DownloadFile(p) in again
  {
    var i := AfterTries(s, tries).index;
    assert !ClashAt(s.sides.local, s.sides.remote, p);
    RowWrittenExactly(task, s.sides.local, s.sides.remote, s.index, plan, p);
    UnwrittenRowStays(s, plan, tries, p);
    var d := Decide(task, l, r, i, p);
    assert |d| >= 1 ==> d[0] in d;
  }
}
