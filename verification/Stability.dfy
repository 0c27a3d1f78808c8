/** Whole baseline runs, one after another: plan from both snapshots and the index, execute, write the
    snapshots back to the index. */
module Stability {
  import opened Trees
  import opened Actions
  import opened Settling
  import opened FileIndex
  import opened Planner
  import opened Convergence
  import opened Conditions

  datatype RunState = RunState(sides: Sides, index: Index)

  /** One successful bidirectional run, with any plan the planner may come up with. */
  ghost predicate Round(task: Task, a: RunState, b: RunState, plan: seq<Action>) {
    && BidirectionalPlan(task, a.sides.local, a.sides.remote, a.index, plan)
    && Run(plan, a.sides) == Done(b.sides)
    && b.index == WriteSnapshot(a.index, b.sides.local, b.sides.remote)
  }

  /** Successive runs; plans[k] takes states[k] to states[k + 1]. */
  ghost predicate Rounds(task: Task, states: seq<RunState>, plans: seq<seq<Action>>) {
    && |states| == |plans| + 1
    && forall k :: 0 <= k < |plans| ==> Round(task, states[k], states[k + 1], plans[k])
  }

  /** A plan's own order is a schedule, and no move in it comes late. */
  lemma OwnOrder(task: Task, l: Tree, r: Tree, i: Index, plan: seq<Action>)
    requires BidirectionalPlan(task, l, r, i, plan)
    ensures Schedule(plan, plan) && MovesBeforeDeletes(plan)
  {
  }

  /** A baseline run in the planner's own order converges if and only if no path clashes, everything
      below a remote directory that is to be deleted is to be deleted, and no local move ends there;
      the last follows when no row is marked as a conflict. */
  lemma BaselineConvergesExactly(task: Task, l: Tree, r: Tree, i: Index, plan: seq<Action>)
    requires PrefixClosed(l) && PrefixClosed(r) && task.policy != KeepBoth
    requires BidirectionalPlan(task, l, r, i, plan)
    ensures Converged(Run(plan, Sides(l, r))) <==>
            NoClash(l, r) && DeletesWholeDirs(task, l, r, i) && NoMoveIntoDeletes(task, l, r, i, plan)
    ensures IndexOk(i) && NoConflictRows(i) ==>
              (Converged(Run(plan, Sides(l, r))) <==> NoClash(l, r) && DeletesWholeDirs(task, l, r, i))
    ensures Converged(Run(plan, Sides(l, r))) ==> Run(plan, Sides(l, r)).sides.local == Target(task, l, r, plan)
  {
    OwnOrder(task, l, r, i, plan);
    ConvergesExactly(task, l, r, i, plan, plan);
    NothingKeptExactly(task, l, r, i, plan);
    if IndexOk(i) && NoConflictRows(i) {
      NothingKeptByInputs(task, l, r, i, plan);
    }
    if NoClash(l, r) && NothingKeptUnderDeletes(r, plan) {
      ConvergesIf(task, l, r, i, plan, plan);
    }
  }

  lemma TargetClosed(task: Task, l: Tree, r: Tree, i: Index, plan: seq<Action>)
    requires Setting(task, l, r, i, plan) && NoClash(l, r) && NothingKeptUnderDeletes(r, plan)
    ensures PrefixClosed(Target(task, l, r, plan))
  {
    var t := Target(task, l, r, plan);
    forall p, d | p in t && d != [] && Inside(p, d) ensures IsDir(At(t, d)) {
      assert At(t, p) != None;
      ParentsKept(task, l, r, i, plan, p, d);
    }
    assert At(t, []) == None;
  }

  ghost predicate OnlyExistingDirs(t: Tree, plan: seq<Action>) {
    forall a :: a in plan ==> a.CreateDirRemote? && IsDir(At(t, a.path))
  }

  /** On equal trees a plan only re-creates remote directories that are there. */
  lemma EqualTreesPlan(task: Task, t: Tree, i: Index, plan: seq<Action>)
    requires Partition(task, t, t, i, plan)
    ensures OnlyExistingDirs(t, plan)
  {
    forall a | a in plan ensures a.CreateDirRemote? && IsDir(At(t, a.path)) {
      assert MoveOf(t, t, i, a);
      if !a.IsMove() {
        PlannedBecause(task, t, t, i, plan, a);
      }
    }
  }

  lemma EqualTreesRun(t: Tree, acts: seq<Action>)
    requires PrefixClosed(t) && OnlyExistingDirs(t, acts)
    ensures Run(acts, Sides(t, t)) == Done(Sides(t, t))
  {
    var w := World(t, t, t, t);
    forall k | 0 <= k < |acts| ensures Sound(w, acts[k]) && acts[k].CreateDirRemote? {
      assert acts[k] in acts;
      var p := acts[k].path;
      forall d | d != [] && Covers(d, p) ensures DirOk(t, t, d) {
        assert d != p ==> Inside(p, d);
      }
    }
    RunSettles(w, acts);
  }

  lemma EqualTreesRound(task: Task, t: Tree, a: RunState, b: RunState, plan: seq<Action>)
    requires PrefixClosed(t) && a.sides == Sides(t, t) && Round(task, a, b, plan)
    ensures b.sides == Sides(t, t) && OnlyExistingDirs(t, plan)
  {
    EqualTreesPlan(task, t, a.index, plan);
    EqualTreesRun(t, plan);
  }

  /** Once the two trees are equal, every later run leaves both as they are and plans nothing but
      remote directories that exist, whatever the index says. */
  lemma {:induction false} EqualTreesStay(task: Task, states: seq<RunState>, plans: seq<seq<Action>>, t: Tree, k: nat)
    requires Rounds(task, states, plans) && k < |states|
    requires PrefixClosed(t) && states[0].sides == Sides(t, t)
    ensures states[k].sides == Sides(t, t)
    ensures k < |plans| ==> OnlyExistingDirs(t, plans[k])
  {
    if k > 0 {
      EqualTreesStay(task, states, plans, t, k - 1);
      EqualTreesRound(task, t, states[k - 1], states[k], plans[k - 1]);
    }
    if k < |plans| {
      EqualTreesRound(task, t, states[k], states[k + 1], plans[k]);
    }
  }

  /** After one convergent run the index is exact and every further run changes neither tree. */
  lemma StableAfterOneRun(task: Task, states: seq<RunState>, plans: seq<seq<Action>>, k: nat, p: Path)
    requires Rounds(task, states, plans) && task.policy != KeepBoth && 1 <= k < |states|
    requires PrefixClosed(states[0].sides.local) && PrefixClosed(states[0].sides.remote)
    requires states[1].sides.local == states[1].sides.remote
    ensures var t := Target(task, states[0].sides.local, states[0].sides.remote, plans[0]);
            && states[k].sides == Sides(t, t)
            && (k < |plans| ==> OnlyExistingDirs(t, plans[k]))
            && (Row(states[k].index, p).OnBoth() <==> p in t)
            && (p in t ==> Row(states[k].index, p).state == Synced && !Row(states[k].index, p).tombstone)
            && (p !in t ==> !MirrorDeletes(Row(states[k].index, p)) && !MoveCandidate(Row(states[k].index, p)))
  {
    var l, r, plan := states[0].sides.local, states[0].sides.remote, plans[0];
    var t := Target(task, l, r, plan);
    assert Round(task, states[0], states[1], plan);
    OwnOrder(task, l, r, states[0].index, plan);
    ConvergesExactly(task, l, r, states[0].index, plan, plan);
    ConvergesIf(task, l, r, states[0].index, plan, plan);
    TargetClosed(task, l, r, states[0].index, plan);
    assert Sides(l, r) == states[0].sides;
    assert Rounds(task, states[1..], plans[1..]) by {
      forall j | 0 <= j < |plans[1..]| ensures Round(task, states[1..][j], states[1..][j + 1], plans[1..][j]) {
        assert Round(task, states[j + 1], states[j + 2], plans[j + 1]);
      }
    }
    EqualTreesStay(task, states[1..], plans[1..], t, k - 1);
    assert Round(task, states[k - 1], states[k], plans[k - 1]);
    SnapshotExact(states[k - 1].index, t, t, p);
  }

  /** A plan that deletes p, or moves it away, after an earlier delete of p was written back, comes after
      a write that put both existence flags of p back; and a planned delete names a path that the
      other side does not have. */
  lemma PlannedAgainOnlyAfterRecovery(task: Task, l: Tree, r: Tree, i: Index, d: Write, h: seq<Write>,
                                      plan: seq<Action>, a: Action)
    returns (k: nat)
    requires Partition(task, l, r, Replay(i, [d] + h), plan) && a in plan && (a.IsDelete() || a.IsMove())
    requires var p := if a.IsMove() then a.src else a.path; p != [] && IsDeleteOf(d, p)
    ensures k < |h| && Recovers(Apply1(i, d), h, if a.IsMove() then a.src else a.path, k)
    ensures a.DeleteLocal? ==> a.path in l && a.path !in r
    ensures a.DeleteRemote? ==> a.path in r && a.path !in l
  {
    if a.IsMove() {
      assert MoveOf(l, r, Replay(i, [d] + h), a);
      k := DeleteThenRecover(i, d, h, a.src);
    } else {
      PlannedBecause(task, l, r, Replay(i, [d] + h), plan, a);
      k := DeleteThenRecover(i, d, h, a.path);
    }
  }

  /** What the queue's writer says of a planned action agrees with the trees the run ends in, from any
      index: kept paths are on both sides and of the type the row says, move sources on neither. After a
      delete the path is on neither side, but the row keeps the other side's flag and says so only by its tombstone. */
  lemma WrittenBackAgrees(task: Task, l: Tree, r: Tree, i: Index, plan: seq<Action>, w: World, a: Action, j: Index)
    requires Good(task, l, r, i, plan, w) && FreshCopies(l, r, plan) && a in plan
    ensures var e := Row(WriteResult(j, a), a.path);
            && (!a.IsDelete() ==> a.path in w.fl && a.path in w.fr && e.OnBoth() && !e.tombstone)
            && (!a.IsDelete() ==> (e.conflict <==> IsConflict(a)))
            && (!a.IsDelete() ==> e.state == if IsConflict(a) then Conflicted else Synced)
            && (!a.IsDelete() ==> e.isDir == IsDir(At(w.fl, a.path)) == IsDir(At(w.fr, a.path)))
            && (a.IsMove() ==> a.src !in w.fl && a.src !in w.fr && NothingThere(Row(WriteResult(j, a), a.src)))
            && (a.IsDelete() ==> a.path !in w.fl && a.path !in w.fr && e.tombstone && !MirrorDeletes(e))
            && (a.DeleteLocal? ==> !e.localExists && e.remoteExists == Row(j, a.path).remoteExists)
            && (a.DeleteRemote? ==> !e.remoteExists && e.localExists == Row(j, a.path).localExists)
            && (a.IsDelete() ==> e.conflict == Row(j, a.path).conflict)
            && (a.IsDelete() ==> e.isDir == (IsDir(At(l, a.path)) || IsDir(At(r, a.path))))
  {
    FinalAt(task, l, r, i, plan, w, a.path);
    assert !ClashAt(l, r, a.path);
    if a.IsMove() {
      assert MoveOf(l, r, i, a) && MovedFrom(plan, a.src);
      MoveEndNotGone(task, l, r, i, plan, a);
      GoneEverywhere(task, l, r, i, plan, w, a.src);
      assert a.path != [] && a.src != a.path;
    } else {
      PlannedBecause(task, l, r, i, plan, a);
      assert a.path != [];
      if a.IsDelete() {
        GoneEverywhere(task, l, r, i, plan, w, a.path);
      } else {
        DecidedNotGone(task, l, r, i, plan, a);
      }
    }
  }

  /** With unused conflict names what goes is on neither side afterwards. */
  lemma GoneEverywhere(task: Task, l: Tree, r: Tree, i: Index, plan: seq<Action>, w: World, p: Path)
    requires Good(task, l, r, i, plan, w) && FreshCopies(l, r, plan) && (p in l || p in r)
    ensures Gone(plan, p) ==> p !in w.fl && p !in w.fr
  {
    forall a | a in plan && IsConflict(a) ensures a.copy != p {}
    assert !CopiedTo(true, plan, p) && !CopiedTo(false, plan, p);
  }
}
