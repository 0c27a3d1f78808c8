/** Concrete inputs that show a condition is needed: runs that end apart, a planning failure, a version
    that is overwritten, a text order that is not time order. */
module Examples {
  import opened Trees
  import opened Actions
  import opened Settling
  import opened FileIndex
  import opened Planner
  import opened Detection
  import opened Readability
  import opened Convergence
  import opened Conditions
  import opened Stability
  import opened ConflictNames
  import opened Text
  import opened Timestamps

  const MIRROR := Task(Bidirectional, true, PreferRemote)
  const CLEAN_DIR := Entry(true, true, true, 1, Synced, false, false)
  const CLEAN_FILE := Entry(false, true, true, 1, Synced, false, false)
  const D: Path := ["d"]
  const DN: Path := ["d", "n"]
  const X: Path := ["x"]
  const Y: Path := ["y"]

  // ---- runs that end apart ------------------------------------------------------------------------

  /** A file is added on the remote inside a synced directory that was deleted locally. */
  lemma NewFileInDeletedDir()
    ensures var r := map[D := Dir, DN := File([])];
            var i := map[D := CLEAN_DIR];
            var plan := [DeleteRemote(D, true), DownloadFile(DN)];
            && Setting(MIRROR, map[], r, i, plan) && IndexOk(i) && NoConflictRows(i)
            && NoClash(map[], r) && MovesBeforeDeletes(plan)
            && !DeletesWholeDirs(MIRROR, map[], r, i)
            && !Converged(Run(plan, Sides(map[], r)))
            && !Converged(Run([DownloadFile(DN), DeleteRemote(D, true)], Sides(map[], r)))
  {
    var r: Tree := map[D := Dir, DN := File([])];
    DeleteAndDownload(map[], r, map[D := CLEAN_DIR]);
  }

  lemma DeleteAndDownload(l: Tree, r: Tree, i: Index)
    requires l == map[] && r == map[D := Dir, DN := File([])] && i == map[D := CLEAN_DIR]
    ensures var plan := [DeleteRemote(D, true), DownloadFile(DN)];
            && Setting(MIRROR, l, r, i, plan) && NoClash(l, r) && MovesBeforeDeletes(plan)
            && !DeletesWholeDirs(MIRROR, l, r, i)
            && !Converged(Run(plan, Sides(l, r)))
            && !Converged(Run([DownloadFile(DN), DeleteRemote(D, true)], Sides(l, r)))
  {
    var plan := [DeleteRemote(D, true), DownloadFile(DN)];
    DeleteAndDownloadPlanned(l, r, i);
    PathFacts();
    assert DirDeleted(MIRROR, l, r, i, D) && DN in r && Inside(DN, D);
    NothingKeptExactly(MIRROR, l, r, i, plan);
    ConvergesExactly(MIRROR, l, r, i, plan, plan);
    var swapped := [DownloadFile(DN), DeleteRemote(D, true)];
    assert forall a :: a in swapped <==> a in plan;
    ConvergesExactly(MIRROR, l, r, i, plan, swapped);
  }

  lemma DeleteAndDownloadPlanned(l: Tree, r: Tree, i: Index)
    requires l == map[] && r == map[D := Dir, DN := File([])] && i == map[D := CLEAN_DIR]
    ensures Setting(MIRROR, l, r, i, [DeleteRemote(D, true), DownloadFile(DN)])
  {
    PathFacts();
    assert Partition(MIRROR, l, r, i, [DeleteRemote(D, true), DownloadFile(DN)]);
  }

  lemma PathFacts()
    ensures Covers(D, DN) && Inside(DN, D) && D != DN && X != D && X != DN && X != Y && Y != D
    ensures forall d :: d != [] && Inside(DN, d) ==> d == D
    ensures forall d :: d != [] ==> !Inside(D, d) && !Inside(X, d) && !Inside(Y, d)
  {
    assert X[0][0] != D[0][0] && D[0] == DN[0] && Y[0][0] != X[0][0] && Y[0][0] != D[0][0];
    forall d | d != [] && Inside(DN, d) ensures d == D {
      assert |d| == 1 && d[0] == DN[0];
    }
  }

  /** A synced file is renamed locally to where the remote has a file with a conflict on record, in a
      synced directory that was deleted locally: the rename is undone into a directory that goes. */
  lemma MoveIntoDeletedDir()
    ensures var l, r := map[X := File([])], map[D := Dir, DN := File([])];
            var i := map[X := CLEAN_FILE, D := CLEAN_DIR, DN := Entry(false, true, true, 1, Conflicted, true, false)];
            var plan := [MoveLocal(X, DN), DeleteRemote(D, true)];
            && BidirectionalPlan(MIRROR, l, r, i, plan) && IndexOk(i) && NoClash(l, r)
            && DeletesWholeDirs(MIRROR, l, r, i) && !NoMoveIntoDeletes(MIRROR, l, r, i, plan)
            && !Converged(Run(plan, Sides(l, r)))
  {
    var l: Tree, r: Tree := map[X := File([])], map[D := Dir, DN := File([])];
    var i: Index := map[X := CLEAN_FILE, D := CLEAN_DIR, DN := Entry(false, true, true, 1, Conflicted, true, false)];
    var plan := [MoveLocal(X, DN), DeleteRemote(D, true)];
    PathFacts();
    MoveIntoPlan(l, r, i, plan);
    assert plan[0] in plan && DirDeleted(MIRROR, l, r, i, D) && Inside(plan[0].path, D);
    assert DeletesWholeDirs(MIRROR, l, r, i);
    BaselineConvergesExactly(MIRROR, l, r, i, plan);
  }

  lemma MoveIntoPlan(l: Tree, r: Tree, i: Index, plan: seq<Action>)
    requires l == map[X := File([])] && r == map[D := Dir, DN := File([])]
    requires X in i && MoveCandidate(i[X]) && DN in i && !MoveCandidate(i[DN]) && D in i && i[D] == CLEAN_DIR
    requires plan == [MoveLocal(X, DN), DeleteRemote(D, true)]
    ensures BidirectionalPlan(MIRROR, l, r, i, plan)
  {
    PathFacts();
    var m, d := plan[0], plan[1];
    assert forall a :: a in plan <==> a == m || a == d;
    assert LocalEnd(plan, X) && RemoteEnd(plan, DN) && !Consumed(plan, D);
    assert Decide(MIRROR, l, r, i, D) == [d];
    assert MoveOf(l, r, i, m) && MoveOf(l, r, i, d);
    assert Partition(MIRROR, l, r, i, plan);
  }

  // ---- planning that always fails -----------------------------------------------------------------

  /** A synced directory is removed on the remote while the remote has one new file: the three conditions
      for convergence hold, yet planning fails in every iteration order, and so it does on every run,
      since a failed plan changes nothing. */
  lemma UnreadableDirectory()
    ensures var l, r, i := map[D := Dir], map[X := File([])], map[D := CLEAN_DIR];
            && PrefixClosed(l) && PrefixClosed(r) && IndexOk(i) && NoConflictRows(i)
            && NoClash(l, r) && DeletesWholeDirs(MIRROR, l, r, i) && NeverReadable(l, r, i)
  {
    var l: Tree, r: Tree, i: Index := map[D := Dir], map[X := File([])], map[D := CLEAN_DIR];
    PathFacts();
    assert UnreadableCandidate(l, r, i, D) && LocalOnlyFile(r, l, X);
    assert LocalTwins(l, r, r[X]) == {} && X in RemoteTwins(l, r, r[X]);
  }

  /** The same with a synced file renamed locally: its own remote move uses up the only file to compare the
      directory with, and planning never fails. */
  lemma RenameBesideUnreadable()
    ensures var l, r := map[D := Dir, X := File([])], map[Y := File([])];
            AlwaysReadable(l, r, map[D := CLEAN_DIR, Y := CLEAN_FILE])
  {
    var l: Tree, r: Tree := map[D := Dir, X := File([])], map[Y := File([])];
    PathFacts();
    assert LocalTwins(l, r, r[Y]) == {X} && RemoteTwins(l, r, r[Y]) == {Y};
  }

  /** The same with the file renamed on the remote: the local move comes in the second loop, and whether it
      comes before the directory is left to the order. */
  lemma OrderDecides() returns (moves: seq<Action>, other: seq<Action>)
    ensures var l, r, i := map[D := Dir, X := File([])], map[Y := File([])], map[D := CLEAN_DIR, X := CLEAN_FILE];
            Detected(l, r, i, true, moves) && Detected(l, r, i, false, other)
  {
    var l: Tree, r: Tree := map[D := Dir, X := File([])], map[Y := File([])];
    var i: Index := map[D := CLEAN_DIR, X := CLEAN_FILE];
    PathFacts();
    assert UnreadableCandidate(l, r, i, D) && LocalOnlyFile(r, l, Y);
    assert LocalTwins(l, r, r[Y]) == {X} && RemoteTwins(l, r, r[Y]) == {Y};
    assert CleanLocalTwins(l, r, i, r[Y]) == {X} && UncleanRemoteTwins(l, r, i, r[Y]) == {Y};
    moves := SuccessExists(l, r, i);
    other := FailureExists(l, r, i);
  }

  // ---- texts --------------------------------------------------------------------------------------

  /** Half a second past is text-later than the full second: an item due at the full second is not
      listed at half past it. */
  lemma LaterButTextEarlier()
    ensures Misordered(0, NANOS / 2) && TextLess(Format(NANOS / 2), Format(0))
  {
    assert DateOf(0) == Date(1970, 1, 1);
    FractionOfHalf();
    FormatOrder(0, NANOS / 2);
  }

  lemma FractionOfHalf()
    ensures InRange(0) && InRange(NANOS / 2) && Fraction(0) < Fraction(NANOS / 2)
  {
    assert DateOf(0) == Date(1970, 1, 1);
    AllZeros(9);
    assert Pow10(9) == NANOS by { assert Pow10(3) == 1000; assert Pow10(6) == 1_000_000; }
    DigitsOrder(0, NANOS / 2, 9);
    FractionOrder(0, NANOS / 2);
  }

  lemma {:induction false} AllZeros(w: nat)
    ensures TrimZeros(Digits(0, w)) == ""
  {
    if w > 0 {
      AllZeros(w - 1);
      assert Digits(0, w)[..w - 1] == Digits(0, w - 1);
    }
  }

  const KEEP := Task(Bidirectional, false, KeepBoth)

  // Two trees over the same two top-level names, whose first files differ.
  lemma UsedNameTrees(c: Path, l: Tree, r: Tree)
    requires |c| == 1 && c != X
    requires l == map[X := File([1]), c := File([2])] && r == map[X := File([3]), c := File([2])]
    ensures PrefixClosed(l) && PrefixClosed(r) && NoClash(l, r)
    ensures At(l, X) != At(r, X) && At(l, c) == At(r, c) && IsFile(At(l, c))
  {
    var x: Bytes, y: Bytes := [1], [3];
    assert x[0] != y[0];
    forall p, d | |p| == 1 && d != [] ensures !Inside(p, d) {
      assert Covers(d, p) ==> d == p;
    }
  }

  lemma UsedNameDecisions(i: Index, c: Path, l: Tree, r: Tree)
    requires At(l, X) != At(r, X) && IsFile(At(l, X)) && IsFile(At(r, X)) && At(l, c) == At(r, c) && IsFile(At(l, c))
    ensures Decide(KEEP, l, r, i, X) ==
            [ConflictLocal(X, CopyName(i, X, LOCAL_COPY)), ConflictRemote(X, CopyName(i, X, REMOTE_COPY))]
    ensures Decide(KEEP, l, r, i, c) == []
  {
  }

  lemma UsedNamePlan(i: Index, c: Path, l: Tree, r: Tree, plan: seq<Action>)
    requires i == map[] && c == CopyName(i, X, LOCAL_COPY)
    requires l == map[X := File([1]), c := File([2])] && r == map[X := File([3]), c := File([2])]
    requires plan == [ConflictLocal(X, c), ConflictRemote(X, CopyName(i, X, REMOTE_COPY))]
    ensures Setting(KEEP, l, r, i, plan) && NoClash(l, r) && !FreshCopies(l, r, plan)
  {
    CopyShape(i);
    UsedNameTrees(c, l, r);
    UsedNameDecisions(i, c, l, r);
    var a, b := plan[0], plan[1];
    assert forall x :: x in plan <==> x == a || x == b;
    assert forall p :: p in l || p in r ==> p == X || p == c;
    assert Partition(KEEP, l, r, i, plan);
  }

  /** A conflict name that is in use: a keep_both run overwrites the file of that name. */
  lemma UsedConflictName()
    ensures var c, c' := CopyName(map[], X, LOCAL_COPY), CopyName(map[], X, REMOTE_COPY);
            var l, r := map[X := File([1]), c := File([2])], map[X := File([3]), c := File([2])];
            var plan := [ConflictLocal(X, c), ConflictRemote(X, c')];
            && Setting(KEEP, l, r, map[], plan) && NoClash(l, r) && !FreshCopies(l, r, plan)
            && Run(plan, Sides(l, r)).Done?
            && forall q :: At(Run(plan, Sides(l, r)).sides.local, q) != At(l, c)
  {
    var i: Index := map[];
    var c, c' := CopyName(i, X, LOCAL_COPY), CopyName(i, X, REMOTE_COPY);
    var l: Tree := map[X := File([1]), c := File([2])];
    var r: Tree := map[X := File([3]), c := File([2])];
    var plan := [ConflictLocal(X, c), ConflictRemote(X, c')];
    UsedNamePlan(i, c, l, r, plan);
    CopyShape(i);
    OverwrittenRun(l, r, c, c');
  }

  lemma RunTwo(a: Action, b: Action, s: Sides, s1: Sides)
    requires Apply(a, s) == Done(s1)
    ensures Run([a, b], s) == Apply(b, s1)
  {
    RunSnoc([], a, s);
    RunSnoc([a], b, s);
    assert [] + [a] == [a] && [a] + [b] == [a, b];
  }

  lemma OverwrittenRun(l: Tree, r: Tree, c: Path, c': Path)
    requires |c| == 1 && c != X
    requires l == map[X := File([1]), c := File([2])] && r == map[X := File([3]), c := File([2])]
    ensures var o := Run([ConflictLocal(X, c), ConflictRemote(X, c')], Sides(l, r));
            o.Done? && o.sides.local == map[X := File([1]), c := File([3])]
    ensures File([2]) != File([1]) && File([2]) != File([3])
  {
    var x: Bytes, y: Bytes, z: Bytes := [1], [2], [3];
    assert x[0] != y[0] && z[0] != y[0];
    OverwriteCopy(l, c, [3]);
    RunTwo(ConflictLocal(X, c), ConflictRemote(X, c'), Sides(l, r),
           Sides(map[X := File([1]), c := File([3])], r));
  }

  lemma CopyShape(i: Index)
    ensures var c := CopyName(i, X, LOCAL_COPY);
            && |c| == 1 && c != X && (forall d :: d != [] ==> !Inside(c, d)) && forall d :: d != [] ==> !Inside(X, d)
  {
    var c := CopyName(i, X, LOCAL_COPY);
    ConflictNameFresh(X[0], LOCAL_COPY, NextConflictVersion(Row(i, X)));
    assert c[0] == ConflictName(X[0], LOCAL_COPY, NextConflictVersion(Row(i, X)));
    assert forall p: Path, d :: |p| == 1 && Covers(d, p) && d != [] ==> d == p;
  }

  lemma OverwriteCopy(t: Tree, c: Path, body: Bytes)
    requires |c| == 1 && IsFile(At(t, c))
    ensures WriteFile(t, c, body) == FsOk(t[c := File(body)])
  {
    assert Parent(c) == [];
    assert forall d :: Covers(d, []) ==> d == [];
    SameTree(WithDirs(t, []), t);
  }
}
