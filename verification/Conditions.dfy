/** The conditions for convergence that speak of the plan, restated on what the planner is given. */
module Conditions {
  import opened Trees
  import opened Actions
  import opened FileIndex
  import opened Planner
  import opened Convergence

  /** The remote has the directory, the local side does not, and the index lets the plan delete it. */
  predicate DirDeleted(task: Task, l: Tree, r: Tree, i: Index, d: Path) {
    IsDir(At(r, d)) && d !in l && ShouldDelete(task, Row(i, d))
  }

  /** Below a remote directory that is to go, every entry is to go. */
  ghost predicate DeletesWholeDirs(task: Task, l: Tree, r: Tree, i: Index) {
    forall d, p :: DirDeleted(task, l, r, i, d) && p in r && Inside(p, d) ==> ShouldDelete(task, Row(i, p))
  }

  /** No local move ends below a remote directory that is to go. */
  ghost predicate NoMoveIntoDeletes(task: Task, l: Tree, r: Tree, i: Index, plan: seq<Action>) {
    forall a, d :: a in plan && a.MoveLocal? && Inside(a.path, d) ==> !DirDeleted(task, l, r, i, d)
  }

  ghost predicate NoConflictRows(i: Index) {
    forall p :: p in i ==> !i[p].conflict
  }

  /** The deleted directories are those that are to go. */
  lemma DirDeletedIsPlanned(task: Task, l: Tree, r: Tree, i: Index, plan: seq<Action>, d: Path)
    requires Partition(task, l, r, i, plan) && IsDir(At(r, d))
    ensures DeletedRemotely(plan, d) <==> DirDeleted(task, l, r, i, d)
  {
    GoneOf(task, l, r, i, plan, d);
    GoneExactly(task, l, r, i, plan, d);
    assert forall m :: m in plan ==> MoveOf(l, r, i, m);
    assert !Consumed(plan, d);
  }

  /** What happens to an entry below a deleted directory. */
  lemma BelowDeleted(task: Task, l: Tree, r: Tree, i: Index, plan: seq<Action>, d: Path, p: Path)
    requires Setting(task, l, r, i, plan) && DirDeleted(task, l, r, i, d) && p in r && Inside(p, d)
    ensures d != [] && p !in l
    ensures Gone(plan, p) ==> ShouldDelete(task, Row(i, p))
    ensures ShouldDelete(task, Row(i, p)) ==> Gone(plan, p) || exists a :: a in plan && a.MoveLocal? && a.path == p
    ensures forall a :: a in plan && a.MoveLocal? && a.path == p ==>
              !Gone(plan, p) && !MoveCandidate(Row(i, p))
  {
    GoneExactly(task, l, r, i, plan, p);
    forall m | m in plan && m.IsMove()
      ensures m.src == p ==> ShouldDelete(task, Row(i, p))
      ensures m.MoveLocal? && m.path == p ==> !Gone(plan, p) && !MoveCandidate(Row(i, p))
    {
      assert MoveOf(l, r, i, m);
      MoveEndNotGone(task, l, r, i, plan, m);
    }
    if ShouldDelete(task, Row(i, p)) && Consumed(plan, p) {
      var m :| m in plan && m.IsMove() && (m.src == p || m.path == p);
      assert MoveOf(l, r, i, m);
      assert m.src == p ==> MovedFrom(plan, p);
    }
  }

  /** Nothing is kept below a remotely deleted directory exactly if whole directories are deleted and no
      local move ends in one. */
  lemma NothingKeptExactly(task: Task, l: Tree, r: Tree, i: Index, plan: seq<Action>)
    requires Setting(task, l, r, i, plan)
    ensures NothingKeptUnderDeletes(r, plan) <==>
            DeletesWholeDirs(task, l, r, i) && NoMoveIntoDeletes(task, l, r, i, plan)
  {
    if NothingKeptUnderDeletes(r, plan) {
      forall d, p | DirDeleted(task, l, r, i, d) && p in r && Inside(p, d)
        ensures ShouldDelete(task, Row(i, p)) && forall a :: a in plan && a.MoveLocal? ==> a.path != p
      {
        DirDeletedIsPlanned(task, l, r, i, plan, d);
        BelowDeleted(task, l, r, i, plan, d, p);
      }
      forall a | a in plan && a.MoveLocal? ensures a.path in r { assert MoveOf(l, r, i, a); }
    } else {
      var d, p :| DeletedRemotely(plan, d) && p in r && Covers(d, p) && !Gone(plan, p);
      GoneOf(task, l, r, i, plan, d);
      assert Inside(p, d) && IsDir(At(r, d));
      DirDeletedIsPlanned(task, l, r, i, plan, d);
      BelowDeleted(task, l, r, i, plan, d, p);
    }
  }

  /** With sound rows and no conflict on record no local move ends below a deleted directory whose
      entries are all to go: their rows are clean, and the remote file would have moved instead. */
  lemma NoMovesByInputs(task: Task, l: Tree, r: Tree, i: Index, plan: seq<Action>)
    requires Partition(task, l, r, i, plan) && IndexOk(i) && NoConflictRows(i)
    ensures DeletesWholeDirs(task, l, r, i) ==> NoMoveIntoDeletes(task, l, r, i, plan)
  {
    forall a, d | a in plan && a.MoveLocal? && Inside(a.path, d) && DeletesWholeDirs(task, l, r, i)
      ensures !DirDeleted(task, l, r, i, d)
    {
      assert MoveOf(l, r, i, a);
      assert a.path in i ==> RowOk(i[a.path]);
      assert DirDeleted(task, l, r, i, d) ==> ShouldDelete(task, Row(i, a.path));
    }
  }

  lemma NothingKeptByInputs(task: Task, l: Tree, r: Tree, i: Index, plan: seq<Action>)
    requires Setting(task, l, r, i, plan) && IndexOk(i) && NoConflictRows(i)
    ensures NothingKeptUnderDeletes(r, plan) <==> DeletesWholeDirs(task, l, r, i)
  {
    NothingKeptExactly(task, l, r, i, plan);
    NoMovesByInputs(task, l, r, i, plan);
  }

  /** A baseline run leaves such an index, whatever index it started from. */
  lemma SnapshotHasNoConflicts(i: Index, l: Tree, r: Tree)
    requires IndexOk(i)
    ensures IndexOk(WriteSnapshot(i, l, r)) && NoConflictRows(WriteSnapshot(i, l, r))
  {
    WriteKeepsOk(i, Snapshot(l, r));
  }
}
