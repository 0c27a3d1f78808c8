/** Concrete inputs for the queue: a listing order that loses files, a success reported for nothing, and an
    item attempted without end. */
module QueueExamples {
  import opened Trees
  import opened Actions
  import opened Settling
  import opened FileIndex
  import opened Planner
  import opened Convergence
  import opened Conditions
  import opened Stability
  import opened ConflictNames
  import opened Text
  import opened OperationQueue
  import opened Execution
  import opened Drain
  import opened FreshQueue
  import opened Retries
  import opened Scheduler
  import opened Replans
  import opened Examples

  // ---- a plan whose listing order loses files -----------------------------------------------------

  function MovedName(k: nat): Path { [Decimal(k)] }
  function OldName(k: nat): Path { D + [Decimal(k)] }
  function NewNames(n: nat): set<Path> { set k | 0 <= k < n :: MovedName(k) }
  function OldNames(n: nat): set<Path> { set k | 0 <= k < n :: OldName(k) }

  /** n synced files of a directory d have been moved locally to the root, and d removed. */
  function MovedOut(n: nat): Tree { map p | p in NewNames(n) :: File([]) }
  function BeforeMove(n: nat): Tree { map p | p in OldNames(n) + {D} :: if p == D then Dir else File([]) }
  function SyncedIndex(n: nat): Index { map p | p in OldNames(n) + {D} :: if p == D then CLEAN_DIR else CLEAN_FILE }

  function MoveOutPlan(n: nat): seq<Action> {
    seq(n, k requires k >= 0 => MoveRemote(OldName(k), MovedName(k))) + [DeleteRemote(D, true)]
  }

  lemma NameFacts(j: nat, k: nat)
    ensures MovedName(j) != D && OldName(j) != D && OldName(j) != MovedName(k) && Inside(OldName(j), D)
    ensures j != k ==> MovedName(j) != MovedName(k) && OldName(j) != OldName(k)
    ensures forall d :: d != [] ==> !Inside(MovedName(j), d) && !Inside(D, d) && (Inside(OldName(j), d) <==> d == D)
  {
    assert Decimal(j)[0] <= '9' < D[0][0];
    assert MovedName(j)[0] == Decimal(j) && OldName(j)[1] == Decimal(j);
    assert MovedName(k)[0] == Decimal(k) && OldName(k)[1] == Decimal(k);
    if Decimal(j) == Decimal(k) {
      DecimalInjective(j, k);
    }
    forall d | d != [] && Inside(OldName(j), d) ensures d == D {
      assert |d| == 1 && d[0] == OldName(j)[0];
    }
  }

  lemma MoveOutActions(n: nat, a: Action)
    requires a in MoveOutPlan(n)
    ensures a == DeleteRemote(D, true) || exists k: nat :: k < n && a == MoveRemote(OldName(k), MovedName(k))
  {
    var k :| 0 <= k < |MoveOutPlan(n)| && MoveOutPlan(n)[k] == a;
  }

  lemma MoveOutEnds(n: nat, k: nat)
    requires k < n
    ensures var m := MoveRemote(OldName(k), MovedName(k));
            && m in MoveOutPlan(n) && MoveOf(MovedOut(n), BeforeMove(n), SyncedIndex(n), m)
            && LocalEnd(MoveOutPlan(n), MovedName(k)) && RemoteEnd(MoveOutPlan(n), OldName(k))
  {
    assert MoveOutPlan(n)[k] == MoveRemote(OldName(k), MovedName(k));
    assert MovedName(k) in NewNames(n) && OldName(k) in OldNames(n);
    NameFacts(k, k);
    forall j: nat | j < n ensures OldName(j) != MovedName(k) && MovedName(j) != OldName(k) {
      NameFacts(j, k);
      NameFacts(k, j);
    }
  }

  lemma MoveOutClosed(n: nat)
    ensures PrefixClosed(MovedOut(n)) && PrefixClosed(BeforeMove(n)) && NoClash(MovedOut(n), BeforeMove(n))
    ensures D !in MovedOut(n) && IsDir(At(BeforeMove(n), D))
  {
    forall k: nat ensures MovedName(k) != D && MovedName(k) != [] && OldName(k) != [] { NameFacts(k, k); }
    forall p, d | (p in MovedOut(n) || p in BeforeMove(n)) && d != [] && Inside(p, d)
      ensures p !in MovedOut(n) && d == D
    {
      var k: nat :| p == MovedName(k) || p == OldName(k) || p == D;
      NameFacts(k, k);
    }
    forall p ensures !ClashAt(MovedOut(n), BeforeMove(n), p) {
      if p in MovedOut(n) && p in BeforeMove(n) {
        assert MovedOut(n)[p] == File([]) && p != D;
      }
    }
  }

  /** Two different actions of the plan have no endpoint in common, and no two places hold the same action. */
  lemma MoveOutDistinct(n: nat)
    ensures Matching(MoveOutPlan(n)) && NoRepeats(MoveOutPlan(n)) && MovesLead(MoveOutPlan(n))
    ensures !Consumed(MoveOutPlan(n), D)
  {
    var plan := MoveOutPlan(n);
    forall a, b | a in plan && b in plan && a.IsMove() && b.IsMove() && a != b
      ensures a.src != b.src && a.path != b.path && a.src != b.path
    {
      MoveOutActions(n, a);
      MoveOutActions(n, b);
      var j: nat :| j < n && a == MoveRemote(OldName(j), MovedName(j));
      var k: nat :| k < n && b == MoveRemote(OldName(k), MovedName(k));
      NameFacts(j, k);
    }
    forall j, k | 0 <= j < k < |plan| ensures plan[j] != plan[k] && plan[j].IsMove() {
      NameFacts(j, k);
    }
    forall a | a in plan && a.IsMove() ensures a.src != D && a.path != D {
      MoveOutActions(n, a);
      var j: nat :| j < n && a == MoveRemote(OldName(j), MovedName(j));
      NameFacts(j, j);
    }
  }

  /** Every action of the plan is a detected move or the delete. */
  lemma MoveOutMoves(n: nat, a: Action)
    requires a in MoveOutPlan(n)
    ensures MoveOf(MovedOut(n), BeforeMove(n), SyncedIndex(n), a) && (a == DeleteRemote(D, true) || a.MoveRemote?)
  {
    MoveOutActions(n, a);
    if a != DeleteRemote(D, true) {
      var k: nat :| k < n && a == MoveRemote(OldName(k), MovedName(k));
      MoveOutEnds(n, k);
    }
  }

  /** Every path but d is a move's end. */
  lemma MoveOutCovers(n: nat, p: Path)
    ensures p in MovedOut(n) ==> LocalEnd(MoveOutPlan(n), p)
    ensures p in BeforeMove(n) && p != D ==> RemoteEnd(MoveOutPlan(n), p)
  {
    if p in MovedOut(n) {
      var k: nat :| k < n && p == MovedName(k);
      MoveOutEnds(n, k);
    }
    if p in BeforeMove(n) && p != D {
      var k: nat :| k < n && p == OldName(k);
      MoveOutEnds(n, k);
    }
  }

  // A plan of moves that end at every path but d, and of the delete of d.
  lemma AllMovedPlan(l: Tree, r: Tree, i: Index, plan: seq<Action>)
    requires forall a :: a in plan ==> MoveOf(l, r, i, a) && (a == DeleteRemote(D, true) || a.MoveRemote?)
    requires forall p :: (p in l ==> LocalEnd(plan, p)) && (p in r && p != D ==> RemoteEnd(plan, p))
    requires Matching(plan) && NoRepeats(plan) && MovesLead(plan) && !Consumed(plan, D)
    requires DeleteRemote(D, true) in plan && D !in l && IsDir(At(r, D)) && Row(i, D) == CLEAN_DIR
    ensures BidirectionalPlan(MIRROR, l, r, i, plan) && NoMoveIntoDeletes(MIRROR, l, r, i, plan)
  {
    assert Decide(MIRROR, l, r, i, D) == [DeleteRemote(D, true)];
    assert Partition(MIRROR, l, r, i, plan);
  }

  /** The plan is one the planner can come up with. */
  lemma MoveOutPlanned(n: nat)
    ensures BidirectionalPlan(MIRROR, MovedOut(n), BeforeMove(n), SyncedIndex(n), MoveOutPlan(n))
    ensures NoMoveIntoDeletes(MIRROR, MovedOut(n), BeforeMove(n), SyncedIndex(n), MoveOutPlan(n))
  {
    MoveOutClosed(n);
    MoveOutDistinct(n);
    forall a | a in MoveOutPlan(n)
      ensures MoveOf(MovedOut(n), BeforeMove(n), SyncedIndex(n), a) && (a == DeleteRemote(D, true) || a.MoveRemote?)
    {
      MoveOutMoves(n, a);
    }
    forall p
      ensures p in MovedOut(n) ==> LocalEnd(MoveOutPlan(n), p)
      ensures p in BeforeMove(n) && p != D ==> RemoteEnd(MoveOutPlan(n), p)
    {
      MoveOutCovers(n, p);
    }
    assert MoveOutPlan(n)[n] == DeleteRemote(D, true);
    AllMovedPlan(MovedOut(n), BeforeMove(n), SyncedIndex(n), MoveOutPlan(n));
  }

  /** Ten files have been moved locally out of a synced directory that was then removed. The planner's own
      order converges; drained from a fresh queue, whose listing puts the delete, item 10, before move 2,
      the plan does not, whatever befalls the items. */
  lemma LongPlanDiverges(before: System, queued: Table, taskId: string, stamp: string, created: string,
                         items: seq<Item>, faults: string -> Fault, retryAt: string)
    requires before.sides == Sides(MovedOut(10), BeforeMove(10)) && before.index == SyncedIndex(10)
    requires Fresh(MIRROR, before, taskId) && TableOk(queued) && Listing(queued, false, items)
    requires Enqueued(before.rows, queued, taskId, stamp, created, MoveOutPlan(10), |MoveOutPlan(10)|)
    requires forall id :: Listed(items, id) <==> id in queued && queued[id].task == taskId
    ensures BidirectionalPlan(MIRROR, before.sides.local, before.sides.remote, before.index, MoveOutPlan(10))
    ensures Converged(Run(MoveOutPlan(10), before.sides))
    ensures var r := DrainItems(before.(rows := queued), items, faults, retryAt);
            !(r.ok && r.system.sides.local == r.system.sides.remote)
  {
    MoveOutPlanned(10);
    MoveOutConverges(10);
    TenBeforeTwo();
    DeleteTenBeforeMoveTwo();
    FreshPlanConvergesExactly(MIRROR, before, queued, taskId, stamp, created, MoveOutPlan(10), items, faults, retryAt);
  }

  lemma MoveOutConverges(n: nat)
    ensures Converged(Run(MoveOutPlan(n), Sides(MovedOut(n), BeforeMove(n))))
  {
    MoveOutPlanned(n);
    MoveOutClosed(n);
    assert DeletesWholeDirs(MIRROR, MovedOut(n), BeforeMove(n), SyncedIndex(n));
    BaselineConvergesExactly(MIRROR, MovedOut(n), BeforeMove(n), SyncedIndex(n), MoveOutPlan(n));
  }

  lemma DeleteTenBeforeMoveTwo()
    requires TextLess(Decimal(10), Decimal(2))
    ensures !TextOrderOk(MoveOutPlan(10))
  {
    NameFacts(2, 2);
    var plan := MoveOutPlan(10);
    assert plan[10] == DeleteRemote(D, true) && plan[2] == MoveRemote(OldName(2), MovedName(2));
    assert LateInText(plan, 10, 2) && DeletesUnder(plan[10], plan[2]);
  }

  lemma TenBeforeTwo()
    ensures TextLess(Decimal(10), Decimal(2))
  {
    assert Decimal(2) == "2" && Decimal(1) == "1" && Decimal(10) == "10" by {
      assert Digit(2) == '2' && Digit(1) == '1' && Digit(0) == '0';
    }
  }

  // ---- what a second plan adds --------------------------------------------------------------------

  /** A new remote directory with a file. Once the first action of the plan has landed, every new plan makes
      the directory on the remote again, which the first plan did not ask for. */
  lemma SecondPlanAddsDir(again: seq<Action>)
    requires BidirectionalPlan(LOCAL_WINS, map[D := Dir], map[D := Dir, DN := File([])],
                               WriteResult(map[], CreateDirLocal(D)), again)
    ensures var r, plan := map[D := Dir, DN := File([])], [CreateDirLocal(D), DownloadFile(DN)];
            && Plain(Origin(LOCAL_WINS, Sides(map[], r), map[], plan))
            && Apply(CreateDirLocal(D), Sides(map[], r)) == Done(Sides(map[D := Dir], r))
            && CreateDirRemote(D) in again && CreateDirRemote(D) !in plan
  {
    NewDirPlain(map[], map[D := Dir, DN := File([])], map[]);
    PathFacts();
    assert Covers(D, D) && forall d :: d != [] && Covers(d, D) ==> d == D;
    SameTree(WithDirs(map[], D), map[D := Dir]);
    MadeDirPlanned(map[D := Dir], map[D := Dir, DN := File([])], WriteResult(map[], CreateDirLocal(D)), again);
  }

  lemma MadeDirPlanned(l: Tree, r: Tree, i: Index, again: seq<Action>)
    requires BidirectionalPlan(LOCAL_WINS, l, r, i, again) && IsDir(At(l, D)) && IsDir(At(r, D))
    ensures CreateDirRemote(D) in again
  {
    assert forall m :: m in again ==> MoveOf(l, r, i, m);
    assert CreateDirRemote(D) in Decide(LOCAL_WINS, l, r, i, D);
  }

  lemma NewDirPlain(l: Tree, r: Tree, i: Index)
    requires l == map[] && r == map[D := Dir, DN := File([])] && i == map[]
    ensures Plain(Origin(LOCAL_WINS, Sides(l, r), i, [CreateDirLocal(D), DownloadFile(DN)]))
  {
    var plan := [CreateDirLocal(D), DownloadFile(DN)];
    PathFacts();
    assert forall a :: a in plan <==> a == plan[0] || a == plan[1];
    assert Decide(LOCAL_WINS, l, r, i, D) == [plan[0]] && Decide(LOCAL_WINS, l, r, i, DN) == [plan[1]];
    assert forall p, q :: !Joinable(l, r, i, p, q);
    assert Partition(LOCAL_WINS, l, r, i, plan);
    assert PrefixClosed(r);
  }

  /** Two equal files renamed locally. Two plans may pair them differently, and both in one queue can leave the
      remote with one file only, each action having been carried out. */
  lemma AmbiguousMoves()
    ensures var l, r := map[X := File([]), Y := File([])], map[P := File([]), Q := File([])];
            var i := map[P := CLEAN_FILE, Q := CLEAN_FILE];
            var one, other := [MoveRemote(P, X), MoveRemote(Q, Y)], [MoveRemote(Q, X), MoveRemote(P, Y)];
            && BidirectionalPlan(LOCAL_WINS, l, r, i, one) && BidirectionalPlan(LOCAL_WINS, l, r, i, other)
            && !Unambiguous(l, r, i)
            && Perform([one[0], other[0], one[1], other[1]], Sides(l, r)) == Sides(l, map[X := File([])])
  {
    var l: Tree, r: Tree := map[X := File([]), Y := File([])], map[P := File([]), Q := File([])];
    var i: Index := map[P := CLEAN_FILE, Q := CLEAN_FILE];
    var one, other := [MoveRemote(P, X), MoveRemote(Q, Y)], [MoveRemote(Q, X), MoveRemote(P, Y)];
    FourNames();
    TwoMovesPlan(l, r, i, one[0], one[1]);
    TwoMovesPlan(l, r, i, other[0], other[1]);
    assert Joinable(l, r, i, X, P) && Joinable(l, r, i, X, Q);
    MoveOver(l, r, one, other);
  }

  const P: Path := ["p"]
  const Q: Path := ["q"]

  lemma FourNames()
    ensures X != Y && X != P && X != Q && Y != P && Y != Q && P != Q
    ensures forall d :: d != [] ==> !Inside(X, d) && !Inside(Y, d) && !Inside(P, d) && !Inside(Q, d)
  {
    assert X[0][0] == 'x' && Y[0][0] == 'y' && P[0][0] == 'p' && Q[0][0] == 'q';
    assert forall p: Path, d :: |p| == 1 && Covers(d, p) && d != [] ==> d == p;
  }

  // Two moves that between them end at every path.
  lemma TwoMovesPlan(l: Tree, r: Tree, i: Index, a: Action, b: Action)
    requires MoveOf(l, r, i, a) && MoveOf(l, r, i, b) && a.MoveRemote? && b.MoveRemote?
    requires l.Keys == {a.path, b.path} && r.Keys == {a.src, b.src}
    requires a.path != b.path && a.src != b.src && a.src != b.path && a.path != b.src
    ensures BidirectionalPlan(LOCAL_WINS, l, r, i, [a, b])
  {
    var plan := [a, b];
    assert forall m :: m in plan <==> m == plan[0] || m == plan[1];
    assert LocalEnd(plan, a.path) && LocalEnd(plan, b.path) && RemoteEnd(plan, a.src) && RemoteEnd(plan, b.src);
    assert forall p :: p in l || p in r ==> Consumed(plan, p);
    assert Partition(LOCAL_WINS, l, r, i, plan);
  }

  lemma MoveOver(l: Tree, r: Tree, one: seq<Action>, other: seq<Action>)
    requires r == map[P := File([]), Q := File([])]
    requires one == [MoveRemote(P, X), MoveRemote(Q, Y)] && other == [MoveRemote(Q, X), MoveRemote(P, Y)]
    ensures Perform([one[0], other[0], one[1], other[1]], Sides(l, r)) == Sides(l, map[X := File([])])
  {
    var half := [MoveRemote(P, X), MoveRemote(Q, X)];
    var r2: Tree := map[X := File([])];
    MovedOver(l, r);
    FourNames();
    assert RemoteMove(r2, Q, Y) == r2 && RemoteMove(r2, P, Y) == r2;
    PerformSnoc(half, MoveRemote(Q, Y), Sides(l, r));
    PerformSnoc(half + [MoveRemote(Q, Y)], MoveRemote(P, Y), Sides(l, r));
    assert half + [MoveRemote(Q, Y)] + [MoveRemote(P, Y)] == [one[0], other[0], one[1], other[1]];
  }

  lemma MovedOver(l: Tree, r: Tree)
    requires r == map[P := File([]), Q := File([])]
    ensures Perform([MoveRemote(P, X), MoveRemote(Q, X)], Sides(l, r)) == Sides(l, map[X := File([])])
  {
    FourNames();
    var r1: Tree := map[X := File([]), Q := File([])];
    SameTree(RemoteMove(r, P, X), r1);
    SameTree(RemoteMove(r1, Q, X), map[X := File([])]);
    PerformSnoc([], MoveRemote(P, X), Sides(l, r));
    PerformSnoc([MoveRemote(P, X)], MoveRemote(Q, X), Sides(l, r));
    assert [] + [MoveRemote(P, X)] == [MoveRemote(P, X)];
    assert [MoveRemote(P, X)] + [MoveRemote(Q, X)] == [MoveRemote(P, X), MoveRemote(Q, X)];
  }

  // ---- a success reported for nothing -------------------------------------------------------------

  const LOCAL_WINS := Task(Bidirectional, false, PreferLocal)

  /** A synced file is edited locally. Its upload fails once, before any effect; the retry is reported as a
      success, and the two sides still differ. */
  lemma EditedFileNotUploaded(item: Item, rows: Table, fault: Fault)
    requires item.attempts == 0
    ensures var l, r, i := map[X := File([1])], map[X := File([2])], map[X := CLEAN_FILE];
            var s := System(Sides(l, r), i, rows);
            var first := Execute(s, item, UploadFile(X), LostBefore);
            var second := Execute(first.system, item.(attempts := 1), UploadFile(X), fault);
            && BidirectionalPlan(LOCAL_WINS, l, r, i, [UploadFile(X)]) && AtRisk(i, UploadFile(X))
            && Converged(Run([UploadFile(X)], Sides(l, r)))
            && !first.ok && second.ok && second.system.sides == Sides(l, r) && l != r
  {
    var l: Tree, r: Tree, i: Index := map[X := File([1])], map[X := File([2])], map[X := CLEAN_FILE];
    var plan := [UploadFile(X)];
    var x: Bytes, y: Bytes := [1], [2];
    assert x[0] != y[0] && l[X] != r[X];
    PathFacts();
    assert Decide(LOCAL_WINS, l, r, i, X) == plan;
    assert BidirectionalPlan(LOCAL_WINS, l, r, i, plan);
    BaselineConvergesExactly(LOCAL_WINS, l, r, i, plan);
    var s := System(Sides(l, r), i, rows);
    LossySuccess(StoreOf(s), UploadFile(X), fault);
  }

  // ---- an item attempted without end --------------------------------------------------------------

  /** A synced file was renamed on the remote. */
  const RENAMED := [MoveLocal(X, Y)]

  function StuckRow(taskId: string, stamp: string, created: string, retryAt: string, k: nat): Item {
    var row := NewItem(taskId, stamp, created, RENAMED, 0);
    if k == 0 then row else row.(status := RetryWait, attempts := k, next := retryAt)
  }

  function StuckRows(row: Item): Table {
    map[row.id := row]
  }

  function StuckState(taskId: string, stamp: string, created: string, retryAt: string, k: nat): System {
    var i, first, both := map[X := CLEAN_FILE], map[X := File([])], map[Y := File([])];
    if k == 0 then System(Sides(first, both), i, map[])
    else System(Sides(both, both), i, StuckRows(StuckRow(taskId, stamp, created, retryAt, k)))
  }

  /** In the first drain the move takes effect and writing its rows to the index fails, which is reported as the
      action's failure; every later one drains the rows as they are. */
  function StuckStep(taskId: string, stamp: string, created: string, retryAt: string, k: nat): Step {
    var row := StuckRow(taskId, stamp, created, retryAt, k);
    RunTask(StuckRows(row), [row], if k == 0 then (_ => LostAfter) else (_ => Healthy), retryAt)
  }

  lemma RenameOnce()
    ensures MoveFile(map[X := File([])], X, Y) == FsOk(map[Y := File([])])
    ensures MoveFile(map[Y := File([])], X, Y) == FsErr(map[Y := File([])])
  {
    PathFacts();
    assert Parent(Y) == [] && forall d :: Covers(d, []) ==> d == [];
    var t: Tree, u: Tree := map[X := File([])], map[Y := File([])];
    SameTree(WithDirs(t, []), t);
    SameTree(WithDirs(u, []), u);
    SameTree((t - {X})[Y := File([])], u);
  }

  /** A failing attempt at the row in a drain of its own. */
  lemma FailingDrain(s: System, row: Item, faults: string -> Fault, retryAt: string, sides: Sides)
    requires s.rows == StuckRows(row) && Executable(row) && row.attempts >= 0
    requires !Execute(s, row, row.op.action, faults(row.id)).ok
    requires Execute(s, row, row.op.action, faults(row.id)).system.sides == sides
    ensures Execute(s, row, row.op.action, faults(row.id)).system.index == s.index
    ensures DrainItems(s, [row], faults, retryAt).system ==
            System(sides, s.index, StuckRows(row.(status := RetryWait, attempts := row.attempts + 1, next := retryAt)))
  {
  }

  lemma StuckStepTaken(taskId: string, stamp: string, created: string, retryAt: string, k: nat)
    ensures var s := StuckState(taskId, stamp, created, retryAt, k);
            var step := StuckStep(taskId, stamp, created, retryAt, k);
            && Enabled(taskId, s, step)
            && TakeStep(taskId, s, step) == StuckState(taskId, stamp, created, retryAt, k + 1)
  {
    var row := StuckRow(taskId, stamp, created, retryAt, k);
    var s := StuckState(taskId, stamp, created, retryAt, k).(rows := StuckRows(row));
    var both: Tree := map[Y := File([])];
    StuckAttempt(s, row, StuckStep(taskId, stamp, created, retryAt, k).faults(row.id));
    FailingDrain(s, row, StuckStep(taskId, stamp, created, retryAt, k).faults, retryAt, Sides(both, both));
  }

  lemma StuckAttempt(s: System, row: Item, fault: Fault)
    requires s.index == map[X := CLEAN_FILE] && row.op == Sync(MoveLocal(X, Y))
    requires s.sides.local == map[if fault == LostAfter then X else Y := File([])]
    requires s.sides.remote == map[Y := File([])]
    requires !fault.LostBefore?
    ensures var r := Execute(s, row, row.op.action, fault);
            !r.ok && r.system.sides == Sides(map[Y := File([])], map[Y := File([])])
  {
    PathFacts();
    RenameOnce();
  }

  ghost predicate PlanFor(s: System, plan: seq<Action>) {
    BidirectionalPlan(MIRROR, s.sides.local, s.sides.remote, s.index, plan)
  }

  /** The remote rename is planned as a local move, which takes effect but is reported as failed, since its
      rows cannot be written to the index just then. From then on the trees are equal, every further plan
      is empty, and every drain of the sync task attempts the item again and fails, without any limit. */
  lemma StuckForever(taskId: string, stamp: string, created: string, retryAt: string, n: nat)
    returns (states: seq<System>, steps: seq<Step>)
    ensures |steps| == n + 1 && RunOf(taskId, states, steps)
    ensures PlanFor(states[0], RENAMED)
    ensures forall k :: 0 <= k < n + 1 ==> steps[k].RunTask? && (k > 0 ==> steps[k].queued == states[k].rows)
    ensures states[0].rows == map[] && Enqueued(map[], steps[0].queued, taskId, stamp, created, RENAMED, 1)
    ensures forall k, plan :: 0 < k <= n + 1 && PlanFor(states[k], plan) ==> plan == []
    ensures forall k :: 0 < k <= n + 1 ==>
              && ItemId(stamp, 0) in states[k].rows && Executable(states[k].rows[ItemId(stamp, 0)])
              && states[k].rows[ItemId(stamp, 0)].attempts == k
  {
    states, steps := StuckRun(taskId, stamp, created, retryAt, n);
    RenamedPlan();
    forall k, plan | 0 < k <= n + 1 && PlanFor(states[k], plan) ensures plan == [] {
      NothingToPlan(states[k], plan);
    }
    assert forall id :: IsNewId(stamp, 1, id) <==> id == ItemId(stamp, 0);
  }

  lemma StuckRun(taskId: string, stamp: string, created: string, retryAt: string, n: nat)
    returns (states: seq<System>, steps: seq<Step>)
    ensures |steps| == n + 1 && RunOf(taskId, states, steps)
    ensures forall k :: 0 <= k <= n + 1 ==> states[k] == StuckState(taskId, stamp, created, retryAt, k)
    ensures forall k :: 0 <= k < n + 1 ==> steps[k] == StuckStep(taskId, stamp, created, retryAt, k)
  {
    states := seq(n + 2, k requires k >= 0 => StuckState(taskId, stamp, created, retryAt, k));
    steps := seq(n + 1, k requires k >= 0 => StuckStep(taskId, stamp, created, retryAt, k));
    forall k | 0 <= k < |steps| ensures StepAt(taskId, states, steps, k) {
      StuckStepTaken(taskId, stamp, created, retryAt, k);
    }
  }

  lemma NothingToPlan(s: System, plan: seq<Action>)
    requires s.sides.local == s.sides.remote == map[Y := File([])] && PlanFor(s, plan)
    ensures plan == []
  {
    assert plan == [] || plan[0] in plan;
    EqualTreesPlan(MIRROR, map[Y := File([])], s.index, plan);
  }

  lemma RenamedPlan()
    ensures BidirectionalPlan(MIRROR, map[X := File([])], map[Y := File([])], map[X := CLEAN_FILE], RENAMED)
  {
    var l: Tree, r: Tree, i: Index := map[X := File([])], map[Y := File([])], map[X := CLEAN_FILE];
    PathFacts();
    var m := RENAMED[0];
    assert forall a :: a in RENAMED <==> a == m;
    assert LocalEnd(RENAMED, X) && RemoteEnd(RENAMED, Y) && MoveOf(l, r, i, m);
    assert BidirectionalPlan(MIRROR, l, r, i, RENAMED);
  }

  // ---- a path that both sides removed -------------------------------------------------------------

  lemma OnceOnly(acts: seq<Action>, a: Action)
    requires NoRepeats(acts) && a in acts && forall b :: b in acts ==> b == a
    ensures acts == [a]
  {
    if |acts| >= 2 {
      Repeats(acts, a);
    }
    assert acts[0] in acts;
  }

  lemma Repeats(acts: seq<Action>, a: Action)
    requires |acts| >= 2 && forall b :: b in acts ==> b == a
    ensures !NoRepeats(acts)
  {
    assert acts[0] in acts && acts[1] in acts;
  }

  /** X was in sync and both sides have removed it. There is nothing to plan, so its row stays. When the local
      side has a new file there, every plan deletes it and nothing else, and the file is gone. */
  lemma NewFileDeleted(body: Bytes, again: seq<Action>)
    requires BidirectionalPlan(MIRROR, map[X := File(body)], map[], map[X := CLEAN_FILE], again)
    ensures forall plan :: BidirectionalPlan(MIRROR, map[], map[], map[X := CLEAN_FILE], plan) ==> plan == []
    ensures BidirectionalPlan(MIRROR, map[], map[], map[X := CLEAN_FILE], [])
    ensures again == [DeleteLocal(X, false)]
    ensures Run(again, Sides(map[X := File(body)], map[])) == Done(Sides(map[], map[]))
  {
    var l: Tree, r: Tree, i: Index := map[X := File(body)], map[], map[X := CLEAN_FILE];
    forall plan | BidirectionalPlan(MIRROR, r, r, i, plan) ensures plan == [] {
      assert plan == [] || plan[0] in plan;
      EqualTreesPlan(MIRROR, r, i, plan);
    }
    forall a | a in again ensures a == DeleteLocal(X, false) {
      assert MoveOf(l, r, i, a);
      assert !a.IsMove() ==> a in Decide(MIRROR, l, r, i, a.path);
    }
    assert !Consumed(again, X);
    DeletesExactly(MIRROR, l, r, i, again, X);
    OnceOnly(again, DeleteLocal(X, false));
    assert Without(l, X) == map[];
    RunCons(DeleteLocal(X, false), [], Sides(l, r));
    assert [DeleteLocal(X, false)] + [] == again;
  }

  // ---- an older copy of a row ---------------------------------------------------------------------

  predicate Has(s: System, id: string, status: Status) {
    id in s.rows && s.rows[id].status == status
  }

  /** Within one tick a row that has succeeded can be put back: the first item runs the task, whose drain uploads
      the file and ends the second row; the tick then attempts its own copy of that row, which fails. */
  lemma OlderCopyPutsBack(taskId: string, created: string, later: nat -> string)
    returns (s: System, ops: seq<Item>, ds: seq<Delivery>)
    ensures Enabled(taskId, s, Tick(ops, {}, ds, later)) && |ops| == 2
    ensures Has(TickItems(s, ops[..1], {}, ds[..1], later), ops[1].id, Succeeded)
    ensures Has(TickItems(s, ops, {}, ds, later), ops[1].id, Queued)
  {
    var ask := BaselineRow("b", taskId, created);
    var row := Item("u", taskId, Sync(UploadFile(X)), 0, Queued, 0, "", created);
    var rows := map["b" := ask, "u" := row];
    s := System(Sides(map[X := File([])], map[]), map[], rows);
    ops, ds := [ask, row], [Reran(true, rows, [row], _ => Healthy, ""), Resolved(LostBefore)];
    assert ask.id[0] != row.id[0];
    var mid := OneRowDrained(s, row);
    var next := Completed(mid, ask);
    assert ops[..1] == [ask] && ds[..1] == [ds[0]] && ops[..1][..0] == [] && ds[..1][..0] == [];
    assert TickItems(s, [], {}, [], later) == s;
    assert TickItems(s, ops[..1], {}, ds[..1], later) == next;
    assert TickOk(taskId, s, [], {}, [], later);
    assert forall j :: 0 <= j < |[row]| ==> [row][j] == row;
    assert Drains(taskId, s.rows, rows, [row]);
    assert Deliverable(taskId, s, ask, ds[0]);
    assert TickOk(taskId, s, ops[..1], {}, ds[..1], later);
  }

  lemma OneRowDrained(s: System, row: Item) returns (t: System)
    requires row.op == Sync(UploadFile(X)) && row.status.Live() && row.attempts == 0
    requires s.sides.local == map[X := File([])] && s.sides.remote == map[]
    requires row.id in s.rows && s.rows[row.id] == row
    ensures DrainItems(s, [row], _ => Healthy, "") == Attempt(t, true)
    ensures t.rows == s.rows[row.id := row.(status := Succeeded)]
  {
    PathFacts();
    assert !PutRefused(s.sides.remote, X);
    var r := Execute(s, row, UploadFile(X), Healthy);
    assert r.ok;
    t := Completed(r.system, row);
    assert [row][1..] == [];
  }
}
