/** Two ways to lose a file in two drains: a new file below a directory that was deleted on the other side, and a
    file moved out of a directory that is deleted too early. */
module Losses {
  import opened Trees
  import opened Actions
  import opened Settling
  import opened FileIndex
  import opened Planner
  import opened Convergence
  import opened OperationQueue
  import opened Execution
  import opened Retries
  import opened Replans

  /** Nothing lies strictly below p. */
  ghost predicate NothingBelow(t: Tree, p: Path) {
    forall x :: Inside(x, p) ==> x !in t
  }

  lemma {:induction false} NeverADirLocal(acts: seq<Action>, s: Sides, p: Path)
    requires !IsDir(At(s.local, p)) && forall b :: b in acts ==> !MakesDirLocal(b, p)
    ensures !IsDir(At(Perform(acts, s).local, p))
  {
    if acts != [] {
      var n := |acts| - 1;
      assert acts[n] in acts;
      NeverADirLocal(acts[..n], s, p);
      LocalChange(acts[n], Perform(acts[..n], s), p);
    }
  }

  lemma {:induction false} ClearedStaysLocal(acts: seq<Action>, s: Sides, a: Action, p: Path)
    requires a in acts && a.DeleteLocal? && Covers(a.path, p)
    requires forall b :: b in acts ==> !WritesLocal(b, p) && !MakesDirLocal(b, p)
    ensures p !in Perform(acts, s).local
  {
    var n := |acts| - 1;
    assert acts[n] in acts;
    if acts[n] != a {
      ClearedStaysLocal(acts[..n], s, a, p);
      LocalChange(acts[n], Perform(acts[..n], s), p);
    }
  }

  /** A plan brings nothing to where neither side has anything at or below a path. */
  lemma NothingBrought(task: Task, l: Tree, r: Tree, i: Index, plan: seq<Action>, p: Path, b: Action)
    requires Partition(task, l, r, i, plan) && task.policy != KeepBoth && b in plan && p != []
    requires NothingBelow(l, p) && NothingBelow(r, p)
    ensures p !in r ==> !WritesLocal(b, p)
    ensures !IsDir(At(r, p)) ==> !MakesDirLocal(b, p)
    ensures p !in l ==> !WritesRemote(b, p)
    ensures !IsDir(At(l, p)) ==> !MakesDirRemote(b, p)
  {
    if b.IsMove() { assert MoveOf(l, r, i, b); } else { PlannedBecause(task, l, r, i, plan, b); }
    assert Covers(p, b.path) && p != b.path ==> Inside(b.path, p);
  }

  lemma NothingBelowFile(t: Tree, p: Path)
    requires PrefixClosed(t) && p != [] && !IsDir(At(t, p))
    ensures NothingBelow(t, p)
  {
  }

  /** Performing a plan leaves a place empty that is empty below on both sides. */
  lemma StillNothingBelow(task: Task, l: Tree, r: Tree, i: Index, plan: seq<Action>, acts: seq<Action>, p: Path)
    requires Partition(task, l, r, i, plan) && task.policy != KeepBoth && p != []
    requires forall b :: b in acts ==> b in plan
    requires NothingBelow(l, p) && NothingBelow(r, p)
    ensures NothingBelow(Perform(acts, Sides(l, r)).local, p) && NothingBelow(Perform(acts, Sides(l, r)).remote, p)
  {
    forall x | Inside(x, p) ensures x !in Perform(acts, Sides(l, r)).local && x !in Perform(acts, Sides(l, r)).remote {
      assert forall y :: Inside(y, x) ==> Inside(y, p);
      forall b | b in acts
        ensures !WritesLocal(b, x) && !MakesDirLocal(b, x) && !WritesRemote(b, x) && !MakesDirRemote(b, x)
      {
        NothingBrought(task, l, r, i, plan, x, b);
      }
      NeverBroughtLocal(acts, Sides(l, r), x);
      NeverBroughtRemote(acts, Sides(l, r), x);
    }
  }

  predicate BringsFile(a: Action) { a.DownloadFile? || a.MoveRemote? }

  /** A brought file's row that was written back still says so after any attempts at planned actions. */
  lemma WrittenBackStays(task: Task, s: Store, plan: seq<Action>, tries: seq<Try>, k: nat)
    requires Setting(task, s.sides.local, s.sides.remote, s.index, plan) && DrawnFrom(plan, tries) && k < |tries|
    requires LandsAt(s, tries, k) && tries[k].fault.Healthy? && BringsFile(tries[k].action)
    ensures var e := Row(AfterTries(s, tries).index, tries[k].action.path); MirrorDeletes(e) && !e.isDir
  {
    var g, h := tries[..k + 1], tries[k + 1..];
    LandedIsWritten(s, tries, k);
    assert tries[k] in tries && tries == g + h && forall t :: t in h ==> t in tries;
    BroughtRowStays(task, s.sides.local, s.sides.remote, s.index, plan, AfterTries(s, tries[..k]).index,
                    AfterTries(s, g), h, tries[k].action);
    AfterBoth(s, g, h);
  }

  lemma BroughtRowStays(task: Task, l: Tree, r: Tree, i: Index, plan: seq<Action>, j: Index, mid: Store,
                        tries: seq<Try>, a: Action)
    requires Setting(task, l, r, i, plan) && DrawnFrom(plan, tries) && a in plan && BringsFile(a)
    requires mid.index == WriteResult(j, a)
    ensures var e := Row(AfterTries(mid, tries).index, a.path); MirrorDeletes(e) && !e.isDir
  {
    PlannedPath(task, l, r, i, plan, a);
    if a.MoveRemote? {
      assert MoveOf(l, r, i, a) && a.src != a.path;
      MoveRowsAt(j, a.src, a.path, a.path);
      MoveRowsAt(mid.index, a.src, a.path, a.path);
    } else {
      ResultRowTwice(Row(j, a.path), a);
    }
    WrittenRowStays(task, l, r, i, plan, mid, tries, a);
  }

  lemma KeptFileIsNew(task: Task, l: Tree, r: Tree, i: Index, plan: seq<Action>, d: Path, p: Path)
    requires Setting(task, l, r, i, plan) && DeletedRemotely(plan, d) && Covers(d, p) && DownloadFile(p) in plan
    ensures p != [] && p !in l && IsFile(At(r, p)) && !Gone(plan, p)
    ensures NothingBelow(l, p) && NothingBelow(r, p)
  {
    PlannedBecause(task, l, r, i, plan, DownloadFile(p));
    DecidedNotGone(task, l, r, i, plan, DownloadFile(p));
    DeleteAsked(task, l, r, i, plan, d);
    assert p != d && Inside(p, d) && d != [] && !IsDir(At(l, d));
    NothingBelowFile(l, p);
    NothingBelowFile(r, p);
  }

  /** After the first drain the file is on the local side only. */
  lemma KeptFileIsLocal(task: Task, l: Tree, r: Tree, i: Index, plan: seq<Action>, acts: seq<Action>, d: Path, p: Path)
    requires Setting(task, l, r, i, plan) && task.policy != KeepBoth
    requires DeletedRemotely(plan, d) && Covers(d, p) && DownloadFile(p) in plan
    requires CarriesOut(plan, acts) && EachTookEffect(plan, acts, Sides(l, r))
    ensures p != [] && IsFile(At(Perform(acts, Sides(l, r)).local, p)) && p !in Perform(acts, Sides(l, r)).remote
    ensures NothingBelow(Perform(acts, Sides(l, r)).local, p) && NothingBelow(Perform(acts, Sides(l, r)).remote, p)
  {
    KeptFileIsNew(task, l, r, i, plan, d, p);
    assert TookEffect(acts, Sides(l, r), DownloadFile(p)) && LocalTarget(DownloadFile(p), p);
    var del :| del in plan && del.DeleteRemote? && del.path == d;
    var k :| 0 <= k < |acts| && acts[k] == del;
    assert RemoteTarget(acts[k], d) by { assert Covers(d, d); }
    KeptUnderDeleteDiverges(task, l, r, i, plan, acts, d, p);
    StillNothingBelow(task, l, r, i, plan, acts, p);
    forall b | b in acts ensures !MakesDirLocal(b, p) { NothingBrought(task, l, r, i, plan, p, b); }
    NeverADirLocal(acts, Sides(l, r), p);
  }

  /** Its place is exposed: the local side alone has the file, and its row allows to delete it there. */
  ghost predicate Exposed(task: Task, t: Store, p: Path) {
    && p != [] && IsFile(At(t.sides.local, p)) && p !in t.sides.remote && ShouldDelete(task, Row(t.index, p))
    && NothingBelow(t.sides.local, p) && NothingBelow(t.sides.remote, p)
  }

  lemma KeptFileIsExposed(task: Task, s: Store, plan: seq<Action>, tries: seq<Try>, d: Path, p: Path, k: nat)
    requires Setting(task, s.sides.local, s.sides.remote, s.index, plan) && task.policy != KeepBoth
    requires DeletedRemotely(plan, d) && Covers(d, p) && DownloadFile(p) in plan
    requires DrawnFrom(plan, tries) && forall a :: a in plan ==> Landed(s, tries, a)
    requires k < |tries| && tries[k].action == DownloadFile(p) && LandsAt(s, tries, k) && tries[k].fault.Healthy?
    ensures Exposed(task, AfterTries(s, tries), p)
  {
    LandedEffects(s, plan, tries);
    TriesPerform(s, tries);
    assert Sides(s.sides.local, s.sides.remote) == s.sides;
    KeptFileIsLocal(task, s.sides.local, s.sides.remote, s.index, plan, Performed(s, tries), d, p);
    WrittenBackStays(task, s, plan, tries, k);
    DeleteAsked(task, s.sides.local, s.sides.remote, s.index, plan, d);
  }

  lemma DeleteAsked(task: Task, l: Tree, r: Tree, i: Index, plan: seq<Action>, d: Path)
    requires Partition(task, l, r, i, plan) && DeletedRemotely(plan, d)
    ensures task.direction == Bidirectional && task.mirror && d in r && d !in l
  {
    var a :| a in plan && a.DeleteRemote? && a.path == d;
    PlannedBecause(task, l, r, i, plan, a);
  }

  lemma LandedEffects(s: Store, plan: seq<Action>, tries: seq<Try>)
    requires DrawnFrom(plan, tries) && forall a :: a in plan ==> Landed(s, tries, a)
    ensures CarriesOut(plan, Performed(s, tries)) && EachTookEffect(plan, Performed(s, tries), s.sides)
  {
    forall a | a in plan ensures TookEffect(Performed(s, tries), s.sides, a) {
      LandedIsEffect(s, tries, a);
    }
    forall a | a in Performed(s, tries) ensures a in plan {
      PerformedFrom(s, tries, a);
    }
    assert forall a :: TookEffect(Performed(s, tries), s.sides, a) ==> a in Performed(s, tries);
  }

  /** No file that only the remote has equals the local one at p. */
  ghost predicate NoRemoteTwin(t: Sides, p: Path) {
    forall q :: LocalOnlyFile(t.remote, t.local, q) ==> At(t.remote, q) != At(t.local, p)
  }

  lemma ExposedIsDeleted(task: Task, t: Store, p: Path, again: seq<Action>)
    requires Exposed(task, t, p) && NoRemoteTwin(t.sides, p) && task.policy != KeepBoth
    requires Partition(task, t.sides.local, t.sides.remote, t.index, again)
    ensures DeleteLocal(p, false) in again
    ensures forall b :: b in again ==> !WritesRemote(b, p) && !WritesLocal(b, p)
  {
    var l, r, i := t.sides.local, t.sides.remote, t.index;
    forall m | m in again && m.IsMove() ensures m.src != p && m.path != p {
      assert MoveOf(l, r, i, m);
    }
    assert !Consumed(again, p);
    assert Decide(task, l, r, i, p) == [DeleteLocal(p, false)];
    assert DeleteLocal(p, false) in Decide(task, l, r, i, p);
    forall b | b in again ensures !WritesRemote(b, p) && !WritesLocal(b, p) {
      if !b.IsMove() { PlannedBecause(task, l, r, i, again, b); }
      assert !b.IsMove() && b.path == p ==> b in Decide(task, l, r, i, p);
    }
  }

  /** The next plan deletes an exposed file, unless the remote has another copy that only it has; performing that
      plan leaves it on neither side. */
  lemma ExposedIsLost(task: Task, t: Store, p: Path, again: seq<Action>, acts: seq<Action>)
    requires Exposed(task, t, p) && NoRemoteTwin(t.sides, p) && task.policy != KeepBoth
    requires BidirectionalPlan(task, t.sides.local, t.sides.remote, t.index, again) && CarriesOut(again, acts)
    ensures DeleteLocal(p, false) in again && p !in Perform(acts, t.sides).local && p !in Perform(acts, t.sides).remote
  {
    ExposedIsDeleted(task, t, p, again);
    forall b | b in acts ensures !MakesDirLocal(b, p) && !MakesDirRemote(b, p) {
      NothingBrought(task, t.sides.local, t.sides.remote, t.index, again, p, b);
    }
    ClearedStaysLocal(acts, t.sides, DeleteLocal(p, false), p);
    NeverBroughtRemote(acts, t.sides, p);
  }

  /** A file that is new on the remote below a directory that was deleted locally is lost. The first drain
      downloads it and deletes its directory remotely, in whatever order and with whatever retries. Unless
      the remote has another copy that only it has, every plan of the second drain deletes the download,
      and performing that plan leaves the file on neither side. */
  lemma KeptFileIsLost(task: Task, s: Store, plan: seq<Action>, tries: seq<Try>, d: Path, p: Path, k: nat,
                       again: seq<Action>, acts: seq<Action>)
    requires Setting(task, s.sides.local, s.sides.remote, s.index, plan) && task.policy != KeepBoth
    requires DeletedRemotely(plan, d) && Covers(d, p) && DownloadFile(p) in plan
    requires DrawnFrom(plan, tries) && forall a :: a in plan ==> Landed(s, tries, a)
    requires k < |tries| && tries[k].action == DownloadFile(p) && LandsAt(s, tries, k) && tries[k].fault.Healthy?
    requires var t := AfterTries(s, tries);
             && BidirectionalPlan(task, t.sides.local, t.sides.remote, t.index, again) && CarriesOut(again, acts)
             && NoRemoteTwin(t.sides, p)
    ensures DeleteLocal(p, false) in again
    ensures var e := Perform(acts, AfterTries(s, tries).sides); p !in e.local && p !in e.remote
  {
    KeptFileIsExposed(task, s, plan, tries, d, p, k);
    ExposedIsLost(task, AfterTries(s, tries), p, again, acts);
  }

  // ---- a late move --------------------------------------------------------------------------------

  /** The remote move first comes after the delete of a directory its source lies in. */
  ghost predicate Late(acts: seq<Action>, m: Action) {
    exists j, k :: 0 <= j < k < |acts| && acts[k] == m && DeletesUnder(acts[j], m) && !OccursBy(acts, j, m)
  }

  lemma LateFileIsLocal(task: Task, l: Tree, r: Tree, i: Index, plan: seq<Action>, acts: seq<Action>, m: Action)
    requires Setting(task, l, r, i, plan) && task.policy != KeepBoth && Within(plan, acts) && Late(acts, m)
    ensures var e := Perform(acts, Sides(l, r));
            && m.path != [] && IsFile(At(e.local, m.path)) && m.path !in e.remote
            && NothingBelow(e.local, m.path) && NothingBelow(e.remote, m.path)
    ensures task.direction == Bidirectional && task.mirror
  {
    var j, k :| 0 <= j < k < |acts| && acts[k] == m && DeletesUnder(acts[j], m) && !OccursBy(acts, j, m);
    assert m in acts && acts[j] in acts;
    assert MoveOf(l, r, i, m) && Consumed(plan, m.path);
    DeleteAsked(task, l, r, i, plan, acts[j].path);
    LateMoveDiverges(task, l, r, i, plan, acts, j, k);
    NothingBelowFile(l, m.path);
    NothingBelowFile(r, m.path);
    StillNothingBelow(task, l, r, i, plan, acts, m.path);
    forall b | b in acts ensures !MakesDirLocal(b, m.path) { NothingBrought(task, l, r, i, plan, m.path, b); }
    NeverADirLocal(acts, Sides(l, r), m.path);
  }

  /** The late move is reported as a success although nothing was moved, and its row is written as synced: so
      the file, which is on the local side only, is exposed. */
  lemma LateMoveIsExposed(task: Task, s: Store, plan: seq<Action>, tries: seq<Try>, m: Action, k: nat)
    requires Setting(task, s.sides.local, s.sides.remote, s.index, plan) && task.policy != KeepBoth
    requires DrawnFrom(plan, tries) && Late(Performed(s, tries), m)
    requires k < |tries| && tries[k].action == m && LandsAt(s, tries, k) && tries[k].fault.Healthy?
    ensures Exposed(task, AfterTries(s, tries), m.path)
  {
    TriesPerform(s, tries);
    forall a | a in Performed(s, tries) ensures a in plan {
      PerformedFrom(s, tries, a);
    }
    assert Sides(s.sides.local, s.sides.remote) == s.sides;
    LateFileIsLocal(task, s.sides.local, s.sides.remote, s.index, plan, Performed(s, tries), m);
    WrittenBackStays(task, s, plan, tries, k);
  }

  /** A file moved locally out of a directory whose delete comes first is lost by the next plan. */
  lemma LateMoveLosesFile(task: Task, s: Store, plan: seq<Action>, tries: seq<Try>, m: Action, k: nat,
                          again: seq<Action>, acts: seq<Action>)
    requires Setting(task, s.sides.local, s.sides.remote, s.index, plan) && task.policy != KeepBoth
    requires DrawnFrom(plan, tries) && Late(Performed(s, tries), m)
    requires k < |tries| && tries[k].action == m && LandsAt(s, tries, k) && tries[k].fault.Healthy?
    requires var t := AfterTries(s, tries);
             && BidirectionalPlan(task, t.sides.local, t.sides.remote, t.index, again) && CarriesOut(again, acts)
             && NoRemoteTwin(t.sides, m.path)
    ensures DeleteLocal(m.path, false) in again
    ensures var e := Perform(acts, AfterTries(s, tries).sides); m.path !in e.local && m.path !in e.remote
  {
    LateMoveIsExposed(task, s, plan, tries, m, k);
    ExposedIsLost(task, AfterTries(s, tries), m.path, again, acts);
  }
}
