/** Delivery when every drain plans again. A new plan of half-synchronised trees holds nothing but actions of
    the first one and the remote side of directories that were just made locally; so whatever is performed, in
    any order and with any failures, leads to the first plan's target. */
module Replans {
  import opened Trees
  import opened Actions
  import opened Settling
  import opened FileIndex
  import opened Planner
  import opened Convergence
  import opened OperationQueue
  import opened Execution
  import opened Retries
  import opened Risks

  /** A bidirectional task under a prefer policy, the trees and index it starts from, and its plan. */
  datatype Origin = Origin(task: Task, sides: Sides, index: Index, plan: seq<Action>) {
    ghost predicate Good() {
      && Setting(task, sides.local, sides.remote, index, plan) && task.policy != KeepBoth
      && NoClash(sides.local, sides.remote) && NothingKeptUnderDeletes(sides.remote, plan)
    }

    /** The tree both sides are to end with. */
    function Final(): Tree {
      Target(task, sides.local, sides.remote, plan)
    }

    ghost function Ends(): World {
      World(sides.local, sides.remote, Final(), Final())
    }

    /** The remote side of a directory that the remote has and keeps. */
    predicate KeptDir(a: Action) {
      a.CreateDirRemote? && IsDir(At(sides.remote, a.path)) && !Gone(plan, a.path)
    }

    predicate Permits(a: Action) {
      a in plan || KeptDir(a)
    }

    /** A reported success can be trusted, or does no harm. */
    ghost predicate Trusted() {
      RisksHarmless(task, sides.local, sides.remote, index, plan)
    }
  }

  ghost predicate AllPermitted(o: Origin, acts: seq<Action>) {
    forall a :: a in acts ==> o.Permits(a)
  }

  lemma OriginWorld(o: Origin)
    requires o.Good()
    ensures Convergence.Good(o.task, o.sides.local, o.sides.remote, o.index, o.plan, o.Ends())
  {
    TargetWorld(o.task, o.sides.local, o.sides.remote, o.index, o.plan);
  }

  lemma KeptDirSound(o: Origin, a: Action)
    requires o.Good() && o.KeptDir(a)
    ensures Sound(o.Ends(), a)
  {
    OriginWorld(o);
    var l, r, p := o.sides.local, o.sides.remote, a.path;
    ParentsFinal(o.task, l, r, o.index, o.plan, o.Ends(), p);
    assert !ClashAt(l, r, p);
    forall d | d != [] && Covers(d, p) ensures DirOk(r, o.Final(), d) {
      assert d != p ==> Inside(p, d);
    }
  }

  lemma PermittedSound(o: Origin, a: Action)
    requires o.Good() && o.Permits(a)
    ensures Sound(o.Ends(), a)
  {
    if a in o.plan {
      OriginWorld(o);
      ActionSound(o.task, o.sides.local, o.sides.remote, o.index, o.plan, o.Ends(), a);
    } else {
      KeptDirSound(o, a);
    }
  }

  lemma PermittedReady(o: Origin, acts: seq<Action>)
    requires o.Good() && AllPermitted(o, acts) && MovesBeforeDeletes(acts)
    ensures AllSound(o.Ends(), acts) && MovesReady(acts)
  {
    forall k | 0 <= k < |acts| ensures Sound(o.Ends(), acts[k]) {
      assert acts[k] in acts;
      PermittedSound(o, acts[k]);
    }
    forall j, k | 0 <= j < k < |acts|
      ensures acts[k].MoveLocal? && ClearsLocal(acts[j], acts[k].src) ==> OccursBy(acts, j, acts[k])
      ensures acts[k].MoveRemote? && ClearsRemote(acts[j], acts[k].src) ==> OccursBy(acts, j, acts[k])
    {
      assert acts[j] in acts && acts[k] in acts;
      if acts[j] in o.plan && acts[k] in o.plan {
        MoveSourceKept(o.task, o.sides.local, o.sides.remote, o.index, o.plan, acts[k], acts[j]);
        assert DeletesUnder(acts[j], acts[k]) ==> OccursBy(acts, j, acts[k]);
      }
    }
  }

  lemma PermittedProgress(o: Origin, acts: seq<Action>)
    requires o.Good() && AllPermitted(o, acts) && MovesBeforeDeletes(acts)
    ensures Progress(o.Ends(), acts, Perform(acts, o.sides))
  {
    PermittedReady(o, acts);
    PerformProgresses(o.Ends(), acts);
    assert Sides(o.Ends().l0, o.Ends().r0) == o.sides;
  }

  /** Performing every planned action at least once, and the remote side of kept directories as often as one
      likes, ends in the target on both sides, in any order that puts no move late. */
  lemma PermittedReachTarget(o: Origin, acts: seq<Action>)
    requires o.Good() && AllPermitted(o, acts) && MovesBeforeDeletes(acts) && forall a :: a in o.plan ==> a in acts
    ensures Perform(acts, o.sides) == Sides(o.Final(), o.Final())
  {
    var l, r, w := o.sides.local, o.sides.remote, o.Ends();
    OriginWorld(o);
    PermittedReady(o, acts);
    forall p | At(l, p) != At(w.fl, p) ensures LocalReached(acts, p) {
      assert !ClashAt(l, r, p);
      var a := ReachesLocal(o.task, l, r, o.index, o.plan, w.fl, p);
      assert a in acts;
    }
    forall p | At(r, p) != At(w.fr, p) ensures RemoteReached(acts, p) {
      assert !ClashAt(l, r, p);
      var a := ReachesRemote(o.task, l, r, o.index, o.plan, w.fr, p);
      assert a in acts;
    }
    PerformSettles(w, acts);
    assert Sides(l, r) == o.sides;
  }

  // ---- attempts at permitted actions --------------------------------------------------------------

  function Begin(o: Origin): Store {
    Store(o.sides, o.index)
  }

  function After(o: Origin, tries: seq<Try>): Store {
    AfterTries(Begin(o), tries)
  }

  ghost predicate TriesPermitted(o: Origin, tries: seq<Try>) {
    forall t :: t in tries ==> o.Permits(t.action)
  }

  predicate HasDir(s: Store, d: Path) {
    IsDir(At(s.sides.local, d))
  }

  /** An attempt at the remote side of a directory was made when the local side had it, and has it still. */
  ghost predicate Faithful(o: Origin, tries: seq<Try>) {
    forall t :: t in tries ==> t.action in o.plan || (o.KeptDir(t.action) && HasDir(After(o, tries), t.action.path))
  }

  lemma PerformedPermitted(o: Origin, s: Store, tries: seq<Try>)
    requires TriesPermitted(o, tries)
    ensures AllPermitted(o, Performed(s, tries))
  {
    forall a | a in Performed(s, tries) ensures o.Permits(a) {
      PerformedFrom(s, tries, a);
    }
  }

  lemma KeptDirNotCleared(o: Origin, a: Action, d: Path)
    requires o.Good() && o.Permits(a) && IsDir(At(o.sides.remote, d))
    ensures !ClearsLocal(a, d)
  {
    if a in o.plan {
      if a.IsMove() {
        assert MoveOf(o.sides.local, o.sides.remote, o.index, a);
      } else {
        PlannedBecause(o.task, o.sides.local, o.sides.remote, o.index, o.plan, a);
        assert a.DeleteLocal? && Covers(a.path, d) && a.path != d ==> a.path != [] && Inside(d, a.path);
      }
    }
  }

  /** A directory of the remote that has come to the local side stays there. */
  lemma KeptDirStays(o: Origin, tries: seq<Try>, more: seq<Try>, d: Path)
    requires o.Good() && TriesPermitted(o, more) && IsDir(At(o.sides.remote, d)) && HasDir(After(o, tries), d)
    ensures HasDir(After(o, tries + more), d)
  {
    var s := After(o, tries);
    AfterBoth(Begin(o), tries, more);
    TriesPerform(s, more);
    PerformedPermitted(o, s, more);
    forall a | a in Performed(s, more) ensures !ClearsLocal(a, d) {
      KeptDirNotCleared(o, a, d);
    }
    LocalKept(Performed(s, more), s.sides, d);
  }

  lemma FaithfulFurther(o: Origin, tries: seq<Try>, more: seq<Try>)
    requires o.Good() && Faithful(o, tries)
    requires forall t :: t in more ==>
               t.action in o.plan || (o.KeptDir(t.action) && HasDir(After(o, tries), t.action.path))
    ensures Faithful(o, tries + more)
  {
    forall t | t in tries + more && t.action !in o.plan
      ensures o.KeptDir(t.action) && HasDir(After(o, tries + more), t.action.path)
    {
      assert t in tries || t in more;
      KeptDirStays(o, tries, more, t.action.path);
    }
  }

  // ---- changed rows -------------------------------------------------------------------------------

  predicate RowChanged(i: Index, j: Index, p: Path) {
    (p in i) != (p in j) || Row(i, p) != Row(j, p)
  }

  /** A row changes only when an action that owns it is performed. */
  lemma {:induction false} RowOwner(s: Store, tries: seq<Try>, p: Path) returns (b: Action)
    requires RowChanged(s.index, AfterTries(s, tries).index, p)
    ensures b in Performed(s, tries) && Touches(s.index, Result(b), p)
  {
    var n := |tries| - 1;
    var before, t := AfterTries(s, tries[..n]), tries[n];
    if RowChanged(s.index, before.index, p) {
      b := RowOwner(s, tries[..n], p);
    } else {
      b := t.action;
      WriteEffect(before.index, Result(b), p);
      assert Lands(before, t);
      assert Performed(s, tries) == Performed(s, tries[..n]) + [b];
    }
  }

  /** Each side of a path whose row a planned action owns is that action's target, or final from the start. */
  lemma PlannedOwns(o: Origin, b: Action, p: Path)
    requires o.Good() && b in o.plan && Touches(o.index, Result(b), p)
    ensures LocalTarget(b, p) || At(o.sides.local, p) == At(o.Final(), p)
    ensures RemoteTarget(b, p) || At(o.sides.remote, p) == At(o.Final(), p)
  {
    var l, r := o.sides.local, o.sides.remote;
    assert !ClashAt(l, r, p);
    if b.IsMove() {
      assert MoveOf(l, r, o.index, b) && MovedFrom(o.plan, b.src);
      MoveEndNotGone(o.task, l, r, o.index, o.plan, b);
    } else {
      PlannedBecause(o.task, l, r, o.index, o.plan, b);
      if b.IsDelete() {
        assert Gone(o.plan, p);
      } else {
        DecidedNotGone(o.task, l, r, o.index, o.plan, b);
      }
    }
  }

  predicate Settled(o: Origin, s: Sides, p: Path) {
    At(s.local, p) == At(o.Final(), p) == At(s.remote, p)
  }

  lemma PerformedSettles(o: Origin, acts: seq<Action>, b: Action, p: Path)
    requires o.Good() && Progress(o.Ends(), acts, Perform(acts, o.sides)) && b in acts
    requires b in o.plan && Touches(o.index, Result(b), p)
    ensures Settled(o, Perform(acts, o.sides), p)
  {
    PlannedOwns(o, b, p);
    var k :| 0 <= k < |acts| && acts[k] == b;
    assert LocalTarget(b, p) ==> LocalReached(acts, p);
    assert RemoteTarget(b, p) ==> RemoteReached(acts, p);
    assert BetweenAt(o.Ends().l0, o.Ends().fl, Perform(acts, o.sides).local, p);
    assert BetweenAt(o.Ends().r0, o.Ends().fr, Perform(acts, o.sides).remote, p);
  }

  lemma KeptDirFinal(o: Origin, d: Path)
    requires o.Good() && IsDir(At(o.sides.remote, d)) && !Gone(o.plan, d)
    ensures At(o.Final(), d) == Some(Dir)
  {
    assert !ClashAt(o.sides.local, o.sides.remote, d);
  }

  /** Where a row has changed, both sides are final. */
  lemma ChangedIsSettled(o: Origin, tries: seq<Try>, p: Path)
    requires o.Good() && Faithful(o, tries) && MovesBeforeDeletes(Performed(Begin(o), tries))
    requires RowChanged(o.index, After(o, tries).index, p)
    ensures Settled(o, After(o, tries).sides, p)
  {
    var acts := Performed(Begin(o), tries);
    TriesPerform(Begin(o), tries);
    PerformedPermitted(o, Begin(o), tries);
    PermittedProgress(o, acts);
    var b := RowOwner(Begin(o), tries, p);
    PerformedFrom(Begin(o), tries, b);
    if b in o.plan {
      PerformedSettles(o, acts, b, p);
    } else {
      var k :| 0 <= k < |acts| && acts[k] == b;
      assert RemoteTarget(b, p) by { PermittedSound(o, b); assert p != []; }
      assert RemoteReached(acts, p);
      KeptDirFinal(o, p);
    }
  }

  // ---- a reported action has been performed, or is no longer needed -------------------------------

  /** If a planned action that was not at risk is reported as a success, it has been performed, or it makes a
      local directory that is there. */
  lemma ReportedIsDone(o: Origin, tries: seq<Try>, a: Action)
    requires o.Good() && Faithful(o, tries) && a in o.plan && !AtRisk(o.index, a)
    requires EverReported(Begin(o), tries, a)
    ensures a in Performed(Begin(o), tries) || (a.CreateDirLocal? && HasDir(After(o, tries), a.path))
  {
    var s := Begin(o);
    var k: nat :| k < |tries| && tries[k].action == a && Reported(s, tries, k);
    if Effective(AfterTries(s, tries[..k]), tries[k]) {
      EffectiveIsPerformed(s, tries, k);
    } else {
      var b := SkippedHasOwner(s, tries, k);
      PerformedFrom(s, tries, b);
      OwnerOf(o, a, b);
    }
  }

  lemma EffectiveIsPerformed(s: Store, tries: seq<Try>, k: nat)
    requires k < |tries| && Effective(AfterTries(s, tries[..k]), tries[k])
    ensures tries[k].action in Performed(s, tries)
  {
    assert tries[..k + 1][..k] == tries[..k] && tries[..k + 1][k] == tries[k];
    PerformedPrefix(s, tries, k + 1);
  }

  /** An action is skipped only after its row has changed, unless it was at risk from the start. */
  lemma SkippedHasOwner(s: Store, tries: seq<Try>, k: nat) returns (b: Action)
    requires k < |tries| && Reported(s, tries, k) && !Effective(AfterTries(s, tries[..k]), tries[k])
    requires !AtRisk(s.index, tries[k].action)
    ensures b in Performed(s, tries) && Touches(s.index, Result(b), tries[k].action.path)
  {
    var p := tries[k].action.path;
    assert RowChanged(s.index, AfterTries(s, tries[..k]).index, p);
    b := RowOwner(s, tries[..k], p);
    PerformedPrefix(s, tries, k);
  }

  lemma {:induction false} PerformedPrefix(s: Store, tries: seq<Try>, k: nat)
    requires k <= |tries|
    ensures forall b :: b in Performed(s, tries[..k]) ==> b in Performed(s, tries)
    decreases |tries|
  {
    if k == |tries| {
      assert tries[..k] == tries;
    } else {
      var n := |tries| - 1;
      assert tries[..n][..k] == tries[..k];
      PerformedPrefix(s, tries[..n], k);
    }
  }

  /** Whoever owns a planned action's row is that action, or the remote side of a directory it makes. */
  lemma OwnerOf(o: Origin, a: Action, b: Action)
    requires o.Good() && a in o.plan && o.Permits(b) && Touches(o.index, Result(b), a.path)
    ensures b == a || (a.CreateDirLocal? && o.KeptDir(b) && a.path == b.path)
  {
    var l, r := o.sides.local, o.sides.remote;
    PlannedPath(o.task, l, r, o.index, o.plan, a);
    if !a.IsMove() { PlannedBecause(o.task, l, r, o.index, o.plan, a); }
    if b in o.plan {
      RowsOwned(o.task, l, r, o.index, o.plan, a, b, o.index, a.path);
    } else {
      assert MoveOf(l, r, o.index, a);
      assert !ClashAt(l, r, a.path);
      assert a.IsDelete() ==> Gone(o.plan, a.path);
    }
  }

  /** Once every planned action has been reported as a success, the risks being harmless, both sides are the
      target. */
  lemma AllReportedReachTarget(o: Origin, tries: seq<Try>)
    requires o.Good() && o.Trusted() && Faithful(o, tries) && MovesBeforeDeletes(Performed(Begin(o), tries))
    requires forall a :: a in o.plan ==> EverReported(Begin(o), tries, a)
    ensures After(o, tries).sides == Sides(o.Final(), o.Final())
  {
    TriesProgress(o, tries);
    forall p ensures Settled(o, After(o, tries).sides, p) {
      FinalInEnd(o, tries, p);
    }
    SettledEverywhere(o, After(o, tries).sides);
  }

  lemma SettledEverywhere(o: Origin, s: Sides)
    requires forall p :: Settled(o, s, p)
    ensures s == Sides(o.Final(), o.Final())
  {
    forall p ensures At(s.local, p) == At(o.Final(), p) && At(s.remote, p) == At(o.Final(), p) {
      assert Settled(o, s, p);
    }
    SameTree(s.local, o.Final());
    SameTree(s.remote, o.Final());
  }

  lemma TriesProgress(o: Origin, tries: seq<Try>)
    requires o.Good() && TriesPermitted(o, tries) && MovesBeforeDeletes(Performed(Begin(o), tries))
    ensures Progress(o.Ends(), Performed(Begin(o), tries), After(o, tries).sides)
  {
    TriesPerform(Begin(o), tries);
    PerformedPermitted(o, Begin(o), tries);
    PermittedProgress(o, Performed(Begin(o), tries));
  }

  lemma FinalInEnd(o: Origin, tries: seq<Try>, p: Path)
    requires o.Good() && o.Trusted() && Faithful(o, tries)
    requires Progress(o.Ends(), Performed(Begin(o), tries), After(o, tries).sides)
    requires forall a :: a in o.plan ==> EverReported(Begin(o), tries, a)
    ensures Settled(o, After(o, tries).sides, p)
  {
    var l, r, w := o.sides.local, o.sides.remote, o.Ends();
    assert !ClashAt(l, r, p);
    assert BetweenAt(w.l0, w.fl, After(o, tries).sides.local, p);
    assert BetweenAt(w.r0, w.fr, After(o, tries).sides.remote, p);
    if At(l, p) != At(w.fl, p) {
      SureReachedLocally(o, tries, p);
    }
    if At(r, p) != At(w.fr, p) {
      SureReachedRemotely(o, tries, p);
    }
  }

  lemma SureReachedRemotely(o: Origin, tries: seq<Try>, p: Path)
    requires o.Good() && Faithful(o, tries) && SureRemotely(o.index, o.plan, p)
    requires forall a :: a in o.plan ==> EverReported(Begin(o), tries, a)
    ensures RemoteReached(Performed(Begin(o), tries), p)
  {
    var a :| a in o.plan && !AtRisk(o.index, a) && RemoteTarget(a, p);
    ReportedIsDone(o, tries, a);
  }

  lemma SureReachedLocally(o: Origin, tries: seq<Try>, p: Path)
    requires o.Good() && Faithful(o, tries) && SureLocally(o.index, o.plan, p)
    requires Progress(o.Ends(), Performed(Begin(o), tries), After(o, tries).sides)
    requires forall a :: a in o.plan ==> EverReported(Begin(o), tries, a)
    ensures LocalReached(Performed(Begin(o), tries), p)
  {
    var a :| a in o.plan && !AtRisk(o.index, a) && LocalTarget(a, p);
    ReportedIsDone(o, tries, a);
    if a !in Performed(Begin(o), tries) {
      var b := MakerOf(o, tries, a);
      DirsAboveMade(b, a.path, p);
      var k :| 0 <= k < |Performed(Begin(o), tries)| && Performed(Begin(o), tries)[k] == b;
    }
  }

  /** A directory that is to be made locally and is there was made by an action that makes it. */
  lemma MakerOf(o: Origin, tries: seq<Try>, a: Action) returns (b: Action)
    requires o.Good() && Faithful(o, tries) && a in o.plan && a.CreateDirLocal?
    requires Progress(o.Ends(), Performed(Begin(o), tries), After(o, tries).sides)
    requires HasDir(After(o, tries), a.path)
    ensures b in Performed(Begin(o), tries) && MakesDirLocal(b, a.path)
  {
    var acts, d := Performed(Begin(o), tries), a.path;
    PlannedBecause(o.task, o.sides.local, o.sides.remote, o.index, o.plan, a);
    PermittedSound(o, a);
    TriesPerform(Begin(o), tries);
    PerformedPermitted(o, Begin(o), tries);
    if forall x :: x in acts ==> !LocalTarget(x, d) {
      UnreachedLocal(acts, o.sides, d);
    }
    b :| b in acts && LocalTarget(b, d);
    PermittedSound(o, b);
    assert DirOk(o.sides.local, o.Final(), d) by { assert Covers(d, d) && d != []; }
  }

  lemma DirsAboveMade(b: Action, d: Path, p: Path)
    requires MakesDirLocal(b, d) && p != [] && Covers(p, d)
    ensures MakesDirLocal(b, p)
  {
  }

  // ---- what is planned again ----------------------------------------------------------------------

  /** No planned delete covers the source of a planned move. */
  ghost predicate NoMoveOutOfDeletes(plan: seq<Action>) {
    forall a, b :: a in plan && b in plan ==> !DeletesUnder(a, b)
  }

  /** No file is joinable with two others. */
  ghost predicate Unambiguous(l: Tree, r: Tree, i: Index) {
    forall p, q, p', q' :: Joinable(l, r, i, p, q) && Joinable(l, r, i, p', q') ==> (p == p' <==> q == q')
  }

  /** The planner's own plan of a good origin, whose moves cannot be mistaken for others. */
  ghost predicate Plain(o: Origin) {
    && o.Good() && BidirectionalPlan(o.task, o.sides.local, o.sides.remote, o.index, o.plan)
    && Unambiguous(o.sides.local, o.sides.remote, o.index)
  }

  /** No planned delete is performed before a planned move out of the directory it deletes. */
  ghost predicate Timely(o: Origin, acts: seq<Action>) {
    forall j, m :: 0 <= j < |acts| && acts[j] in o.plan && m in o.plan && DeletesUnder(acts[j], m) ==>
      OccursBy(acts, j, m)
  }

  ghost predicate InTime(o: Origin, tries: seq<Try>) {
    Timely(o, Performed(Begin(o), tries))
  }

  /** Where the plan has no such pair, nothing can be late. */
  lemma NoneLate(o: Origin, acts: seq<Action>)
    requires NoMoveOutOfDeletes(o.plan)
    ensures Timely(o, acts)
  {
  }

  lemma TimelyNeverLate(o: Origin, acts: seq<Action>)
    requires Timely(o, acts) && AllPermitted(o, acts)
    ensures MovesBeforeDeletes(acts)
  {
    forall j, k | 0 <= j < k < |acts| && DeletesUnder(acts[j], acts[k]) ensures OccursBy(acts, j, acts[k]) {
      assert acts[j] in acts && acts[k] in acts;
    }
  }

  lemma InTimeBefore(o: Origin, g: seq<Try>, h: seq<Try>)
    requires InTime(o, g + h)
    ensures InTime(o, g)
  {
    PerformedBoth(Begin(o), g, h);
    var acts, all := Performed(Begin(o), g), Performed(Begin(o), g + h);
    forall j, m | 0 <= j < |acts| && acts[j] in o.plan && m in o.plan && DeletesUnder(acts[j], m)
      ensures OccursBy(acts, j, m)
    {
      assert all[j] == acts[j];
      var k :| 0 <= k <= j && k < |all| && all[k] == m;
      assert acts[k] == m;
    }
  }

  /** Every path is as at first or final, and where a row has changed both sides are final. */
  ghost predicate Halfway(o: Origin, s: Store) {
    && Towards(o.sides.local, o.Final(), s.sides.local) && Towards(o.sides.remote, o.Final(), s.sides.remote)
    && forall p :: RowChanged(o.index, s.index, p) ==> Settled(o, s.sides, p)
  }

  lemma HalfwayAfter(o: Origin, tries: seq<Try>)
    requires Plain(o) && Faithful(o, tries) && InTime(o, tries)
    ensures MovesBeforeDeletes(Performed(Begin(o), tries)) && Halfway(o, After(o, tries))
    ensures Progress(o.Ends(), Performed(Begin(o), tries), After(o, tries).sides)
  {
    PerformedPermitted(o, Begin(o), tries);
    TimelyNeverLate(o, Performed(Begin(o), tries));
    TriesProgress(o, tries);
    forall p | RowChanged(o.index, After(o, tries).index, p) ensures Settled(o, After(o, tries).sides, p) {
      ChangedIsSettled(o, tries, p);
    }
  }

  /** What only one side has halfway, only that side had at first, with the same content and row. */
  lemma OneSidedBefore(o: Origin, s: Store, p: Path)
    requires o.Good() && Halfway(o, s)
    ensures p in s.sides.local && p !in s.sides.remote ==>
              p !in o.sides.remote && At(s.sides.local, p) == At(o.sides.local, p) && !RowChanged(o.index, s.index, p)
    ensures p in s.sides.remote && p !in s.sides.local ==>
              p !in o.sides.local && At(s.sides.remote, p) == At(o.sides.remote, p) && !RowChanged(o.index, s.index, p)
  {
    GoneOf(o.task, o.sides.local, o.sides.remote, o.index, o.plan, p);
    assert BetweenAt(o.sides.local, o.Final(), s.sides.local, p);
    assert BetweenAt(o.sides.remote, o.Final(), s.sides.remote, p);
  }

  lemma JoinableBefore(o: Origin, s: Store, p: Path, q: Path)
    requires o.Good() && Halfway(o, s) && Joinable(s.sides.local, s.sides.remote, s.index, p, q)
    ensures Joinable(o.sides.local, o.sides.remote, o.index, p, q)
    ensures Row(s.index, p) == Row(o.index, p) && Row(s.index, q) == Row(o.index, q)
  {
    OneSidedBefore(o, s, p);
    OneSidedBefore(o, s, q);
  }

  /** A move that is detected halfway was planned at first. */
  lemma MovePlannedBefore(o: Origin, s: Store, m: Action)
    requires Plain(o) && Halfway(o, s) && m.IsMove() && MoveOf(s.sides.local, s.sides.remote, s.index, m)
    ensures m in o.plan
  {
    var l, r, i := o.sides.local, o.sides.remote, o.index;
    var p, q := if m.MoveRemote? then m.path else m.src, if m.MoveRemote? then m.src else m.path;
    JoinableBefore(o, s, p, q);
    assert LocalEnd(o.plan, p) || RemoteEnd(o.plan, q);
    var m0 :| m0 in o.plan && m0.IsMove()
      && (if m0.MoveRemote? then m0.path == p || m0.src == q else m0.src == p || m0.path == q);
    assert MoveOf(l, r, i, m0);
    var p0, q0 := if m0.MoveRemote? then m0.path else m0.src, if m0.MoveRemote? then m0.src else m0.path;
    assert Joinable(l, r, i, p0, q0);
    assert p0 == p && q0 == q;
  }

  lemma {:induction false} NeverBroughtLocal(acts: seq<Action>, s: Sides, p: Path)
    requires p !in s.local && forall b :: b in acts ==> !WritesLocal(b, p) && !MakesDirLocal(b, p)
    ensures p !in Perform(acts, s).local
  {
    if acts != [] {
      var n := |acts| - 1;
      assert acts[n] in acts;
      NeverBroughtLocal(acts[..n], s, p);
      LocalChange(acts[n], Perform(acts[..n], s), p);
    }
  }

  lemma {:induction false} NeverBroughtRemote(acts: seq<Action>, s: Sides, p: Path)
    requires p !in s.remote && forall b :: b in acts ==> !WritesRemote(b, p) && !MakesDirRemote(b, p)
    ensures p !in Perform(acts, s).remote
  {
    if acts != [] {
      var n := |acts| - 1;
      assert acts[n] in acts;
      NeverBroughtRemote(acts[..n], s, p);
      NotBroughtRemote(acts[n], Perform(acts[..n], s), p);
    }
  }

  /** No permitted action but the move itself brings anything to its new place or clears its source. */
  lemma OnlyTheMove(o: Origin, m: Action, b: Action)
    requires Plain(o) && m in o.plan && m.IsMove() && o.Permits(b) && b != m && !DeletesUnder(b, m)
    ensures m.MoveRemote? ==> !WritesRemote(b, m.path) && !MakesDirRemote(b, m.path) && !ClearsRemote(b, m.src)
    ensures m.MoveLocal? ==> !WritesLocal(b, m.path) && !MakesDirLocal(b, m.path) && !ClearsLocal(b, m.src)
  {
    var l, r, i := o.sides.local, o.sides.remote, o.index;
    assert MoveOf(l, r, i, m) && Consumed(o.plan, m.path) && m.path != [];
    if b in o.plan {
      MoveSourceKept(o.task, l, r, i, o.plan, m, b);
      if b.IsMove() { assert MoveOf(l, r, i, b); } else { PlannedBecause(o.task, l, r, i, o.plan, b); }
    }
    assert !IsDir(At(l, m.path)) && !IsDir(At(r, m.path));
    assert forall d :: Inside(d, m.path) ==> d !in l && d !in r;
    assert Covers(m.path, b.path) ==> b.path == m.path || Inside(b.path, m.path);
  }

  /** A move that has not been performed has had its source deleted by none. */
  lemma NotDeletedUnder(o: Origin, acts: seq<Action>, m: Action, b: Action)
    requires Timely(o, acts) && AllPermitted(o, acts) && m in o.plan && m !in acts && b in acts
    ensures !DeletesUnder(b, m)
  {
    var j :| 0 <= j < |acts| && acts[j] == b;
    assert !OccursBy(acts, j, m);
  }

  /** As long as one end of a planned move is not settled, both ends are as at first on both sides. */
  lemma MoveIntact(o: Origin, tries: seq<Try>, m: Action)
    requires Plain(o) && Faithful(o, tries) && InTime(o, tries) && m in o.plan && m.IsMove()
    requires !Settled(o, After(o, tries).sides, m.src) || !Settled(o, After(o, tries).sides, m.path)
    ensures var s := After(o, tries).sides;
            && At(s.local, m.src) == At(o.sides.local, m.src) && At(s.remote, m.src) == At(o.sides.remote, m.src)
            && At(s.local, m.path) == At(o.sides.local, m.path) && At(s.remote, m.path) == At(o.sides.remote, m.path)
  {
    var acts, s := Performed(Begin(o), tries), After(o, tries).sides;
    var l, r := o.sides.local, o.sides.remote;
    HalfwayAfter(o, tries);
    TriesPerform(Begin(o), tries);
    PerformedPermitted(o, Begin(o), tries);
    assert MoveOf(l, r, o.index, m) && MovedFrom(o.plan, m.src);
    MoveEndNotGone(o.task, l, r, o.index, o.plan, m);
    if m in acts {
      PerformedSettles(o, acts, m, m.src);
      PerformedSettles(o, acts, m, m.path);
    }
    forall b | b in acts
      ensures m.MoveRemote? ==> !WritesRemote(b, m.path) && !MakesDirRemote(b, m.path) && !ClearsRemote(b, m.src)
      ensures m.MoveLocal? ==> !WritesLocal(b, m.path) && !MakesDirLocal(b, m.path) && !ClearsLocal(b, m.src)
    {
      NotDeletedUnder(o, acts, m, b);
      OnlyTheMove(o, m, b);
    }
    assert BetweenAt(l, o.Final(), s.local, m.src) && BetweenAt(l, o.Final(), s.local, m.path);
    assert BetweenAt(r, o.Final(), s.remote, m.src) && BetweenAt(r, o.Final(), s.remote, m.path);
    if m.MoveRemote? {
      NeverBroughtRemote(acts, o.sides, m.path);
    } else {
      NeverBroughtLocal(acts, o.sides, m.path);
    }
  }

  function LocalEndOf(m: Action): Path
    requires m.IsMove()
  {
    if m.MoveRemote? then m.path else m.src
  }

  function RemoteEndOf(m: Action): Path
    requires m.IsMove()
  {
    if m.MoveRemote? then m.src else m.path
  }

  /** A planned move of which one end is still one-sided can be detected again. */
  lemma StillJoinable(o: Origin, tries: seq<Try>, m: Action, p: Path)
    requires Plain(o) && Faithful(o, tries) && InTime(o, tries)
    requires m in o.plan && m.IsMove() && (m.src == p || m.path == p)
    requires var s := After(o, tries).sides; (p in s.local) != (p in s.remote)
    ensures var s := After(o, tries);
            Joinable(s.sides.local, s.sides.remote, s.index, LocalEndOf(m), RemoteEndOf(m))
  {
    var s := After(o, tries);
    HalfwayAfter(o, tries);
    assert !Settled(o, s.sides, p);
    MoveIntact(o, tries, m);
    assert MoveOf(o.sides.local, o.sides.remote, o.index, m);
    OneSidedBefore(o, s, m.src);
    OneSidedBefore(o, s, m.path);
  }

  /** A detected move that shares an end with a planned one is the same. */
  lemma SameMove(o: Origin, m: Action, n: Action)
    requires Plain(o) && m in o.plan && n in o.plan && m.IsMove() && n.IsMove()
    requires LocalEndOf(m) == LocalEndOf(n) || RemoteEndOf(m) == RemoteEndOf(n)
    ensures m == n
  {
    assert MoveOf(o.sides.local, o.sides.remote, o.index, m) && MoveOf(o.sides.local, o.sides.remote, o.index, n);
  }

  /** A path that a planned move uses, and that halfway only one side has, the new plan's moves use too. */
  lemma UsedAgain(o: Origin, tries: seq<Try>, again: seq<Action>, p: Path)
    requires Plain(o) && Faithful(o, tries) && InTime(o, tries) && Consumed(o.plan, p)
    requires var s := After(o, tries); BidirectionalPlan(o.task, s.sides.local, s.sides.remote, s.index, again)
    requires var s := After(o, tries).sides; (p in s.local) != (p in s.remote)
    ensures Consumed(again, p)
  {
    var s := After(o, tries);
    var m :| m in o.plan && m.IsMove() && (m.src == p || m.path == p);
    StillJoinable(o, tries, m, p);
    assert LocalEnd(again, LocalEndOf(m)) || RemoteEnd(again, RemoteEndOf(m));
    var n :| n in again && n.IsMove() && (LocalEndOf(n) == LocalEndOf(m) || RemoteEndOf(n) == RemoteEndOf(m));
    HalfwayAfter(o, tries);
    assert MoveOf(s.sides.local, s.sides.remote, s.index, n);
    MovePlannedBefore(o, s, n);
    SameMove(o, m, n);
  }

  // ---- the new plan's decisions -------------------------------------------------------------------

  /** What is allowed to wait in the queue: planned actions, and the remote side of kept directories that the
      local side has. */
  ghost predicate Allowed(o: Origin, s: Store, a: Action) {
    a in o.plan || (o.KeptDir(a) && HasDir(s, a.path))
  }

  lemma OneSidedAgain(o: Origin, tries: seq<Try>, again: seq<Action>, a: Action)
    requires Plain(o) && Faithful(o, tries) && InTime(o, tries) && a in again && !a.IsMove()
    requires var s := After(o, tries); BidirectionalPlan(o.task, s.sides.local, s.sides.remote, s.index, again)
    requires var s := After(o, tries).sides; (a.path in s.local) != (a.path in s.remote)
    ensures a in o.plan
  {
    var s, p := After(o, tries), a.path;
    HalfwayAfter(o, tries);
    OneSidedBefore(o, s, p);
    assert !Consumed(again, p);
    if Consumed(o.plan, p) {
      UsedAgain(o, tries, again, p);
    }
    assert a in Decide(o.task, s.sides.local, s.sides.remote, s.index, p);
    assert Decide(o.task, s.sides.local, s.sides.remote, s.index, p) ==
           Decide(o.task, o.sides.local, o.sides.remote, o.index, p);
  }

  lemma TwoSidedAgain(o: Origin, tries: seq<Try>, again: seq<Action>, a: Action)
    requires Plain(o) && Faithful(o, tries) && InTime(o, tries) && a in again && !a.IsMove()
    requires var s := After(o, tries); BidirectionalPlan(o.task, s.sides.local, s.sides.remote, s.index, again)
    requires var s := After(o, tries).sides; a.path in s.local && a.path in s.remote
    ensures Allowed(o, After(o, tries), a)
  {
    HalfwayAfter(o, tries);
    TwoSidedDecided(o, After(o, tries), a);
  }

  lemma TwoSidedDecided(o: Origin, s: Store, a: Action)
    requires o.Good() && Halfway(o, s) && a.path in s.sides.local && a.path in s.sides.remote
    requires a in Decide(o.task, s.sides.local, s.sides.remote, s.index, a.path)
    ensures Allowed(o, s, a)
  {
    var l, r, p := o.sides.local, o.sides.remote, a.path;
    assert BetweenAt(l, o.Final(), s.sides.local, p) && BetweenAt(r, o.Final(), s.sides.remote, p);
    assert !ClashAt(l, r, p);
    GoneOf(o.task, l, r, o.index, o.plan, p);
    assert forall m :: m in o.plan ==> MoveOf(l, r, o.index, m);
    if a.CreateDirRemote? {
      assert p in l ==> a in Decide(o.task, l, r, o.index, p) && !Consumed(o.plan, p);
    } else {
      assert Conflicting(l, r, p);
      PlannedFor(o.task, l, r, o.index, o.plan, p);
    }
  }

  /** Planning again halfway adds nothing but what is allowed. */
  lemma PlannedAgainIsAllowed(o: Origin, tries: seq<Try>, again: seq<Action>, a: Action)
    requires Plain(o) && Faithful(o, tries) && InTime(o, tries) && a in again
    requires var s := After(o, tries); BidirectionalPlan(o.task, s.sides.local, s.sides.remote, s.index, again)
    ensures Allowed(o, After(o, tries), a)
  {
    var s := After(o, tries);
    if a.IsMove() {
      HalfwayAfter(o, tries);
      assert MoveOf(s.sides.local, s.sides.remote, s.index, a);
      MovePlannedBefore(o, s, a);
    } else if a.path in s.sides.local && a.path in s.sides.remote {
      TwoSidedAgain(o, tries, again, a);
    } else {
      OneSidedAgain(o, tries, again, a);
    }
  }
}
