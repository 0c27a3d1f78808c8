/** Under keep_both, without mirror deletes and with conflict names that do no harm, no run loses a version. */
module KeepBoth {
  import opened Trees
  import opened Actions
  import opened Settling
  import opened ConflictNames
  import opened FileIndex
  import opened Planner
  import opened Convergence

  lemma NothingTaken(task: Task, l: Tree, r: Tree, i: Index, plan: seq<Action>, p: Path)
    requires Partition(task, l, r, i, plan) && !task.mirror
    ensures !DeletedLocally(plan, p) && !DeletedRemotely(plan, p)
  {
    forall a | a in plan && a.IsDelete() ensures false {
      PlannedBecause(task, l, r, i, plan, a);
    }
  }

  /** Where a run keeps what was at p: there, or where a planned move takes it. */
  ghost predicate KeptPlace(plan: seq<Action>, p: Path, q: Path) {
    q == p || exists m :: m in plan && m.IsMove() && m.src == p && m.path == q
  }

  /** A run that keeps everything: every body stays on its side at its place, and of every conflict both sides
      have both versions. */
  ghost predicate NothingLost(l: Tree, r: Tree, i: Index, plan: seq<Action>, o: Outcome) {
    && o.Done?
    && (forall p :: IsFile(At(l, p)) ==> BodyAt(plan, o.sides.local, p, At(l, p)))
    && (forall p :: IsFile(At(r, p)) ==> BodyAt(plan, o.sides.remote, p, At(r, p)))
    && (forall p :: Conflicting(l, r, p) ==>
          && At(o.sides.local, p) == At(l, p) && At(o.sides.local, CopyName(i, p, LOCAL_COPY)) == At(r, p)
          && At(o.sides.remote, p) == At(r, p) && At(o.sides.remote, CopyName(i, p, REMOTE_COPY)) == At(l, p))
  }

  ghost predicate BodyAt(plan: seq<Action>, t: Tree, p: Path, n: Option<Node>) {
    exists q :: KeptPlace(plan, p, q) && At(t, q) == n
  }

  /** A body that one side has before the run is on that side after it, at its place. */
  lemma BodyKept(task: Task, l: Tree, r: Tree, i: Index, plan: seq<Action>, w: World, p: Path)
    requires Convergence.Good(task, l, r, i, plan, w) && !task.mirror && task.policy.KeepBoth?
    ensures IsFile(At(l, p)) ==> BodyAt(plan, w.fl, p, At(l, p))
    ensures IsFile(At(r, p)) ==> BodyAt(plan, w.fr, p, At(r, p))
  {
    NothingTaken(task, l, r, i, plan, p);
    if m :| m in plan && m.IsMove() && m.src == p {
      assert MoveOf(l, r, i, m);
      MoveEndNotGone(task, l, r, i, plan, m);
      FinalAt(task, l, r, i, plan, w, m.path);
      assert KeptPlace(plan, p, m.path);
    } else {
      FinalAt(task, l, r, i, plan, w, p);
      assert KeptPlace(plan, p, p);
      assert !ClashAt(l, r, p);
    }
  }

  /** Without mirror deletes, and with conflict names that are unused or used for the very content copied
      there, no order loses anything. */
  lemma KeepBothLosesNothing(task: Task, l: Tree, r: Tree, i: Index, plan: seq<Action>, acts: seq<Action>)
    requires Setting(task, l, r, i, plan) && task.policy.KeepBoth? && !task.mirror && Schedule(plan, acts)
    requires NoClash(l, r) && HarmlessCopies(l, r, plan)
    ensures NothingLost(l, r, i, plan, Run(acts, Sides(l, r)))
  {
    var fl := FinalTreeExists(task, true, l, r, i, plan);
    var fr := FinalTreeExists(task, false, l, r, i, plan);
    var w := World(l, r, fl, fr);
    forall p ensures !DeletedRemotely(plan, p) { NothingTaken(task, l, r, i, plan, p); }
    forall a | a in acts ensures !a.DeleteRemote? { assert !DeletedRemotely(plan, a.path); }
    RunReachesFinal(task, l, r, i, plan, w, acts);
    forall p
      ensures IsFile(At(l, p)) ==> BodyAt(plan, fl, p, At(l, p))
      ensures IsFile(At(r, p)) ==> BodyAt(plan, fr, p, At(r, p))
    {
      BodyKept(task, l, r, i, plan, w, p);
    }
    forall p | Conflicting(l, r, p)
      ensures At(fl, p) == At(l, p) && At(fl, CopyName(i, p, LOCAL_COPY)) == At(r, p)
      ensures At(fr, p) == At(r, p) && At(fr, CopyName(i, p, REMOTE_COPY)) == At(l, p)
    {
      ConflictPlanned(task, l, r, i, plan, p);
      FinalAt(task, l, r, i, plan, w, p);
      assert CopiesTo(true, ConflictLocal(p, CopyName(i, p, LOCAL_COPY)));
      assert CopiesTo(false, ConflictRemote(p, CopyName(i, p, REMOTE_COPY)));
    }
  }

  lemma ConflictPlanned(task: Task, l: Tree, r: Tree, i: Index, plan: seq<Action>, p: Path)
    requires Partition(task, l, r, i, plan) && task.policy.KeepBoth? && Conflicting(l, r, p)
    ensures !Gone(plan, p)
    ensures ConflictLocal(p, CopyName(i, p, LOCAL_COPY)) in plan
              && ConflictRemote(p, CopyName(i, p, REMOTE_COPY)) in plan
  {
    GoneOf(task, l, r, i, plan, p);
    assert forall m :: m in plan ==> MoveOf(l, r, i, m);
    PlannedFor(task, l, r, i, plan, p);
  }

  /** With unused conflict names no two planned actions write the same path on the same side. */
  lemma OneWriterPerPath(task: Task, l: Tree, r: Tree, i: Index, plan: seq<Action>, a: Action, b: Action, p: Path)
    requires Setting(task, l, r, i, plan) && FreshCopies(l, r, plan) && a in plan && b in plan
    ensures WritesLocal(a, p) && WritesLocal(b, p) ==> a == b
    ensures WritesRemote(a, p) && WritesRemote(b, p) ==> a == b
  {
    WriterFacts(task, l, r, i, plan, a);
    WriterFacts(task, l, r, i, plan, b);
    if IsConflict(a) && IsConflict(b) && a.copy == b.copy {
      CopiesDiffer(task, l, r, i, plan, a, b);
    }
  }

  lemma WriterFacts(task: Task, l: Tree, r: Tree, i: Index, plan: seq<Action>, a: Action)
    requires Partition(task, l, r, i, plan) && FreshCopies(l, r, plan) && a in plan
    ensures a.IsMove() ==> Consumed(plan, a.path) && (a.path in l || a.path in r)
    ensures a.UploadFile? || a.DownloadFile? ==> !Consumed(plan, a.path) && (a.path in l || a.path in r)
    ensures IsConflict(a) ==> a.copy !in l && a.copy !in r
  {
    assert MoveOf(l, r, i, a);
    if !a.IsMove() {
      PlannedBecause(task, l, r, i, plan, a);
    }
  }
}
