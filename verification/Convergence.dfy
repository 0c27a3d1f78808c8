/** When a bidirectional run converges. For every plan under a prefer policy, every execution order,
    and repetitions: the run succeeds with two equal trees if and only if no path is a file on one
    side and a directory on the other, nothing is kept below a remotely deleted directory, and no
    move out of a remotely deleted directory comes after that delete. */
module Convergence {
  import opened Trees
  import opened Actions
  import opened Settling
  import opened ConflictNames
  import opened FileIndex
  import opened Planner

  /** The same path is a file on one side and a directory on the other. */
  predicate ClashAt(l: Tree, r: Tree, p: Path) {
    p in l && p in r && l[p].Dir? != r[p].Dir?
  }

  ghost predicate NoClash(l: Tree, r: Tree) {
    forall p :: !ClashAt(l, r, p)
  }

  predicate DeletedRemotely(acts: seq<Action>, p: Path) {
    exists a :: a in acts && a.DeleteRemote? && a.path == p
  }

  predicate DeletedLocally(acts: seq<Action>, p: Path) {
    exists a :: a in acts && a.DeleteLocal? && a.path == p
  }

  predicate MovedFrom(acts: seq<Action>, p: Path) {
    exists a :: a in acts && a.IsMove() && a.src == p
  }

  /** Paths that no side is to have after the run. */
  predicate Gone(acts: seq<Action>, p: Path) {
    DeletedLocally(acts, p) || DeletedRemotely(acts, p) || MovedFrom(acts, p)
  }

  /** Everything on the remote at or below a directory the plan deletes is itself deleted or moved away. */
  ghost predicate NothingKeptUnderDeletes(r: Tree, acts: seq<Action>) {
    forall d, p :: DeletedRemotely(acts, d) && p in r && Covers(d, p) ==> Gone(acts, p)
  }

  /** acts consists of planned actions, not necessarily of all of them. */
  ghost predicate Within(plan: seq<Action>, acts: seq<Action>) {
    forall a :: a in acts ==> a in plan
  }

  /** acts consists of the plan's actions, each at least once, in any order. */
  ghost predicate CarriesOut(plan: seq<Action>, acts: seq<Action>) {
    forall a :: a in acts <==> a in plan
  }

  /** The same, a local move not being repeated. */
  ghost predicate Schedule(plan: seq<Action>, acts: seq<Action>) {
    CarriesOut(plan, acts) && LocalMovesOnce(acts)
  }

  /** The action succeeds at one of its places in acts at least. */
  ghost predicate TookEffect(acts: seq<Action>, s: Sides, a: Action) {
    exists k :: 0 <= k < |acts| && acts[k] == a && TakesEffect(acts, s, k)
  }

  ghost predicate EachTookEffect(plan: seq<Action>, acts: seq<Action>, s: Sides) {
    forall a :: a in plan ==> TookEffect(acts, s, a)
  }

  /** The first action is the delete of a directory that the source of the second, a move, lies in. */
  predicate DeletesUnder(a: Action, b: Action) {
    a.DeleteRemote? && b.MoveRemote? && Covers(a.path, b.src)
  }

  /** No move first happens after the delete of a directory that its source lies in. */
  ghost predicate MovesBeforeDeletes(acts: seq<Action>) {
    forall j, k :: 0 <= j < k < |acts| && DeletesUnder(acts[j], acts[k]) ==> OccursBy(acts, j, acts[k])
  }

  // ---- the trees a run ends in --------------------------------------------------------------------

  /** The conflicting paths: equal kind, both files, different bytes. */
  predicate Conflicting(l: Tree, r: Tree, p: Path) {
    IsFile(At(l, p)) && IsFile(At(r, p)) && l[p] != r[p]
  }

  function KeptNode(preferLocal: bool, l: Tree, r: Tree, p: Path): Node
    requires p in l || p in r
  {
    if p in l && (p !in r || preferLocal) then l[p] else r[p]
  }

  /** Both trees merged, the plan's deletes and moves taken into account. */
  function Merged(preferLocal: bool, l: Tree, r: Tree, acts: seq<Action>): (m: Tree)
    ensures forall p :: At(m, p) ==
                        if (p in l || p in r) && !Gone(acts, p) then Some(KeptNode(preferLocal, l, r, p)) else None
  {
    map p | p in l.Keys + r.Keys && !Gone(acts, p) :: KeptNode(preferLocal, l, r, p)
  }

  /** The one tree a run under a prefer policy is meant to leave on both sides. */
  function Target(task: Task, l: Tree, r: Tree, acts: seq<Action>): Tree {
    Merged(task.policy != PreferRemote, l, r, acts)
  }

  // ---- facts about plans --------------------------------------------------------------------------

  ghost predicate Setting(task: Task, l: Tree, r: Tree, i: Index, plan: seq<Action>) {
    PrefixClosed(l) && PrefixClosed(r) && Partition(task, l, r, i, plan)
  }

  /** The index asks for a delete of a path that one side lacks; of local entries only files are deleted. */
  predicate DeletePlanned(task: Task, l: Tree, r: Tree, i: Index, p: Path) {
    var e := Row(i, p);
    && task.direction == Bidirectional && task.mirror && e.localExists && e.remoteExists && !e.tombstone
    && (LocalOnlyFile(l, r, p) || (p in r && p !in l))
  }

  /** What a planned action says about its path. */
  lemma PlannedBecause(task: Task, l: Tree, r: Tree, i: Index, plan: seq<Action>, a: Action)
    requires Partition(task, l, r, i, plan) && a in plan && !a.IsMove()
    ensures !Consumed(plan, a.path)
    ensures a.CreateDirLocal? ==> IsDir(At(r, a.path)) && a.path !in l
    ensures a.CreateDirRemote? ==> IsDir(At(l, a.path))
    ensures a.UploadFile? ==>
              IsFile(At(l, a.path)) && (a.path !in r || (Conflicting(l, r, a.path) && task.policy == PreferLocal))
    ensures a.DownloadFile? ==>
              IsFile(At(r, a.path)) && (a.path !in l || (Conflicting(l, r, a.path) && task.policy == PreferRemote))
    ensures a.DeleteLocal? ==> LocalOnlyFile(l, r, a.path)
    ensures a.DeleteRemote? ==> a.path in r && a.path !in l
    ensures a.ConflictLocal? ==>
              Conflicting(l, r, a.path) && task.policy == KeepBoth && a.copy == CopyName(i, a.path, LOCAL_COPY)
    ensures a.ConflictRemote? ==>
              Conflicting(l, r, a.path) && task.policy == KeepBoth && a.copy == CopyName(i, a.path, REMOTE_COPY)
    ensures !a.RefreshMetadata?
    ensures a.IsDelete() <==> DeletePlanned(task, l, r, i, a.path)
  {
    assert a in Decide(task, l, r, i, a.path);
  }

  /** What is planned for a path that no move consumes and whose two sides differ. */
  lemma PlannedFor(task: Task, l: Tree, r: Tree, i: Index, plan: seq<Action>, p: Path)
    requires Partition(task, l, r, i, plan) && !Consumed(plan, p) && !ClashAt(l, r, p)
    ensures p in l && p !in r && !DeletedLocally(plan, p) ==>
              (if l[p].Dir? then CreateDirRemote(p) else UploadFile(p)) in plan
    ensures p in r && p !in l && !DeletedRemotely(plan, p) ==>
              (if r[p].Dir? then CreateDirLocal(p) else DownloadFile(p)) in plan
    ensures Conflicting(l, r, p) && task.policy == PreferLocal ==> UploadFile(p) in plan
    ensures Conflicting(l, r, p) && task.policy == PreferRemote ==> DownloadFile(p) in plan
    ensures Conflicting(l, r, p) && task.policy == KeepBoth ==>
              && ConflictLocal(p, CopyName(i, p, LOCAL_COPY)) in plan
              && ConflictRemote(p, CopyName(i, p, REMOTE_COPY)) in plan
  {
    if p in l || p in r {
      var d := Decide(task, l, r, i, p);
      assert |d| >= 1 ==> d[0] in d;
      assert |d| >= 2 ==> d[1] in d;
    }
  }

  /** Which paths a plan takes away, side by side. */
  lemma GoneOf(task: Task, l: Tree, r: Tree, i: Index, plan: seq<Action>, p: Path)
    requires Partition(task, l, r, i, plan)
    ensures DeletedLocally(plan, p) ==> LocalOnlyFile(l, r, p) && !Consumed(plan, p)
    ensures DeletedRemotely(plan, p) ==> p in r && p !in l && !Consumed(plan, p)
    ensures MovedFrom(plan, p) ==> Consumed(plan, p) && (LocalOnlyFile(l, r, p) || LocalOnlyFile(r, l, p))
    ensures Gone(plan, p) ==> (p in l <==> p !in r)
  {
    if a :| a in plan && a.DeleteLocal? && a.path == p { PlannedBecause(task, l, r, i, plan, a); }
    if a :| a in plan && a.DeleteRemote? && a.path == p { PlannedBecause(task, l, r, i, plan, a); }
    if a :| a in plan && a.IsMove() && a.src == p { assert MoveOf(l, r, i, a); }
  }

  /** What a run takes away, in terms of the inputs: the sources of moves, and the unmoved paths that the
      index had on both sides and one side lacks. */
  lemma GoneExactly(task: Task, l: Tree, r: Tree, i: Index, plan: seq<Action>, p: Path)
    requires Partition(task, l, r, i, plan)
    ensures Gone(plan, p) <==> MovedFrom(plan, p) || (!Consumed(plan, p) && DeletePlanned(task, l, r, i, p))
  {
    GoneOf(task, l, r, i, plan, p);
    forall a | a in plan && a.IsDelete() && a.path == p ensures DeletePlanned(task, l, r, i, p) {
      PlannedBecause(task, l, r, i, plan, a);
    }
    if !Consumed(plan, p) && DeletePlanned(task, l, r, i, p) {
      var d := Decide(task, l, r, i, p);
      assert |d| == 1 && d[0].IsDelete() && d[0].path == p && d[0] in d;
    }
  }

  /** Which deletes a plan holds for an unmoved path, whatever the conflict policy: with mirror, and if the row
      says that both sides had it and has no tombstone, the delete on the side that still has it, where it is
      a file or remote. */
  lemma DeletesExactly(task: Task, l: Tree, r: Tree, i: Index, plan: seq<Action>, p: Path)
    requires Partition(task, l, r, i, plan) && !Consumed(plan, p)
    ensures var e := Row(i, p);
            var asked := task.direction == Bidirectional && task.mirror
                         && e.localExists && e.remoteExists && !e.tombstone;
            && (DeleteLocal(p, false) in plan <==> asked && LocalOnlyFile(l, r, p))
            && (DeleteRemote(p, IsDir(At(r, p))) in plan <==> asked && p in r && p !in l)
            && DeleteLocal(p, true) !in plan && DeleteRemote(p, !IsDir(At(r, p))) !in plan
  {
    var d := Decide(task, l, r, i, p);
    assert |d| >= 1 ==> d[0] in d;
    forall a | a in plan && a.IsDelete() && a.path == p ensures a in d {
      assert !a.IsMove();
    }
  }

  lemma MoveEndNotGone(task: Task, l: Tree, r: Tree, i: Index, plan: seq<Action>, m: Action)
    requires Partition(task, l, r, i, plan) && m in plan && m.IsMove()
    ensures !Gone(plan, m.path)
  {
    assert Consumed(plan, m.path);
    GoneOf(task, l, r, i, plan, m.path);
    assert MoveOf(l, r, i, m);
  }

  lemma DecidedNotGone(task: Task, l: Tree, r: Tree, i: Index, plan: seq<Action>, a: Action)
    requires Partition(task, l, r, i, plan) && a in plan && !a.IsMove() && !a.IsDelete()
    ensures !Gone(plan, a.path)
  {
    PlannedBecause(task, l, r, i, plan, a);
    GoneOf(task, l, r, i, plan, a.path);
    forall b | b in plan && b.IsDelete() && b.path == a.path ensures false {
      PlannedBecause(task, l, r, i, plan, b);
    }
  }

  /** A kept path is consumed only as the new end of a move, which changes the side that lacks it. */
  lemma KeptNotConsumed(task: Task, l: Tree, r: Tree, i: Index, plan: seq<Action>, p: Path)
    requires Partition(task, l, r, i, plan) && !Gone(plan, p)
    requires p in r ==> forall b :: b in plan && b.MoveLocal? ==> b.path != p
    requires p in l ==> forall b :: b in plan && b.MoveRemote? ==> b.path != p
    ensures !Consumed(plan, p)
  {
    forall a | a in plan && a.IsMove() ensures a.src != p && a.path != p {
      assert MoveOf(l, r, i, a);
      assert a.src == p ==> MovedFrom(plan, p);
    }
  }

  /** Directories above a kept path are kept, as long as nothing is kept below a deleted directory. */
  lemma ParentsKept(task: Task, l: Tree, r: Tree, i: Index, plan: seq<Action>, p: Path, d: Path)
    requires Setting(task, l, r, i, plan) && NoClash(l, r) && NothingKeptUnderDeletes(r, plan)
    requires (p in l || p in r) && !Gone(plan, p) && d != [] && Inside(p, d)
    ensures !IsFile(At(l, d)) && !IsFile(At(r, d)) && (d in l || d in r) && !Gone(plan, d)
  {
    assert !ClashAt(l, r, d);
    GoneOf(task, l, r, i, plan, d);
    if p in l {
      assert IsDir(At(l, d));
    } else {
      assert IsDir(At(r, d));
    }
  }

  // ---- conflict copies ----------------------------------------------------------------------------

  predicate IsConflict(a: Action) { a.ConflictLocal? || a.ConflictRemote? }

  function MarkerOf(a: Action): string { if a.ConflictLocal? then LOCAL_COPY else REMOTE_COPY }

  ghost predicate FreshCopies(l: Tree, r: Tree, plan: seq<Action>) {
    forall a :: a in plan && IsConflict(a) ==> a.copy !in l && a.copy !in r
  }

  /** Leaving a copy with this content at c on one side takes nothing from what the plan leaves there. */
  ghost predicate HarmlessAt(own: Tree, other: Tree, plan: seq<Action>, c: Path, n: Option<Node>) {
    && (c in own ==> At(own, c) == n && !Gone(plan, c))
    && (c !in own && c in other && !Gone(plan, c) ==> At(other, c) == n)
  }

  /** A conflict name that is in use is used for the very content that is copied there. */
  ghost predicate HarmlessCopies(l: Tree, r: Tree, plan: seq<Action>) {
    forall a :: a in plan && IsConflict(a) ==>
      if a.ConflictLocal? then HarmlessAt(l, r, plan, a.copy, At(r, a.path))
      else HarmlessAt(r, l, plan, a.copy, At(l, a.path))
  }

  lemma CopyPlace(task: Task, l: Tree, r: Tree, i: Index, plan: seq<Action>, a: Action)
    requires Partition(task, l, r, i, plan) && PrefixClosed(l) && a in plan && IsConflict(a)
    ensures Conflicting(l, r, a.path) && a.path != [] && a.copy != []
    ensures forall d :: Inside(a.copy, d) <==> Inside(a.path, d)
  {
    PlannedBecause(task, l, r, i, plan, a);
    forall d ensures Inside(a.copy, d) <==> Inside(a.path, d) {
      CopyPathParents(a.path, MarkerOf(a), NextConflictVersion(Row(i, a.path)), d);
    }
  }

  /** Different conflicts have different copies. */
  lemma CopiesDiffer(task: Task, l: Tree, r: Tree, i: Index, plan: seq<Action>, a: Action, b: Action)
    requires Partition(task, l, r, i, plan) && PrefixClosed(l) && a in plan && b in plan
    requires IsConflict(a) && IsConflict(b) && a.copy == b.copy
    ensures a == b
  {
    CopyPlace(task, l, r, i, plan, a);
    CopyPlace(task, l, r, i, plan, b);
    PlannedBecause(task, l, r, i, plan, a);
    PlannedBecause(task, l, r, i, plan, b);
    CopyPathInjective(a.path, MarkerOf(a), NextConflictVersion(Row(i, a.path)),
                      b.path, MarkerOf(b), NextConflictVersion(Row(i, b.path)));
  }

  /** The conflict actions that make a copy on the given side. */
  predicate CopiesTo(onLocal: bool, a: Action) {
    if onLocal then a.ConflictLocal? else a.ConflictRemote?
  }

  // ---- the trees of a run under any policy --------------------------------------------------------

  /** f is the tree a run leaves on the given side: both trees merged, and with keep_both each version
      of the other side next to this side's version. */
  ghost predicate FinalTree(task: Task, onLocal: bool, l: Tree, r: Tree, plan: seq<Action>, f: Tree) {
    && (forall a :: a in plan && CopiesTo(onLocal, a) ==> At(f, a.copy) == At(if onLocal then r else l, a.path))
    && (forall p :: !CopiedTo(onLocal, plan, p) ==>
          At(f, p) == if (p in l || p in r) && !Gone(plan, p)
                      then Some(KeptNode(PrefersLocal(task, onLocal), l, r, p)) else None)
  }

  ghost predicate CopiedTo(onLocal: bool, plan: seq<Action>, c: Path) {
    exists a :: a in plan && CopiesTo(onLocal, a) && a.copy == c
  }

  predicate PrefersLocal(task: Task, onLocal: bool) {
    task.policy == PreferLocal || (task.policy == KeepBoth && onLocal)
  }

  ghost predicate FinalWorld(task: Task, l: Tree, r: Tree, plan: seq<Action>, w: World) {
    && w.l0 == l && w.r0 == r
    && FinalTree(task, true, l, r, plan, w.fl) && FinalTree(task, false, l, r, plan, w.fr)
  }

  lemma FinalTreeExists(task: Task, onLocal: bool, l: Tree, r: Tree, i: Index, plan: seq<Action>) returns (f: Tree)
    requires Setting(task, l, r, i, plan)
    ensures FinalTree(task, onLocal, l, r, plan, f)
    ensures task.policy != KeepBoth ==> f == Target(task, l, r, plan)
  {
    var other := if onLocal then r else l;
    forall a | a in plan && CopiesTo(onLocal, a) ensures a.path in other && task.policy == KeepBoth {
      PlannedBecause(task, l, r, i, plan, a);
    }
    forall a, b | a in plan && b in plan && CopiesTo(onLocal, a) && CopiesTo(onLocal, b) && a.copy == b.copy
      ensures a == b
    {
      CopiesDiffer(task, l, r, i, plan, a, b);
    }
    f := MergedWithCopies(task, onLocal, l, r, plan);
  }

  /** On one side each copy has one origin. */
  ghost predicate DistinctCopies(onLocal: bool, plan: seq<Action>) {
    forall a, b :: a in plan && b in plan && CopiesTo(onLocal, a) && CopiesTo(onLocal, b) && a.copy == b.copy ==> a == b
  }

  lemma MergedWithCopies(task: Task, onLocal: bool, l: Tree, r: Tree, plan: seq<Action>) returns (f: Tree)
    requires forall a :: a in plan && CopiesTo(onLocal, a) ==>
              a.path in (if onLocal then r else l) && task.policy == KeepBoth
    requires DistinctCopies(onLocal, plan)
    ensures FinalTree(task, onLocal, l, r, plan, f)
    ensures task.policy != KeepBoth ==> f == Target(task, l, r, plan)
  {
    var copies := CopyMap(onLocal, if onLocal then r else l, plan);
    var merged := Merged(PrefersLocal(task, onLocal), l, r, plan);
    f := merged + copies;
    forall p | p in copies ensures task.policy == KeepBoth {
      var a := Origin(onLocal, plan, p);
      assert IsConflict(a);
    }
    forall a | a in plan && CopiesTo(onLocal, a) ensures At(f, a.copy) == At(copies, a.copy) {
    }
    forall p | !CopiedTo(onLocal, plan, p) ensures At(f, p) == At(merged, p) {
      assert p !in copies;
    }
    if task.policy != KeepBoth {
      assert copies == map[];
      assert f == merged;
    }
  }

  ghost function CopyMap(onLocal: bool, other: Tree, plan: seq<Action>): (m: Tree)
    requires forall a :: a in plan && CopiesTo(onLocal, a) ==> a.path in other
    requires DistinctCopies(onLocal, plan)
    ensures forall a :: a in plan && CopiesTo(onLocal, a) ==> At(m, a.copy) == At(other, a.path)
    ensures forall c :: c in m ==> CopiedTo(onLocal, plan, c)
  {
    var copies := set a | a in plan && CopiesTo(onLocal, a) :: CopyOf(a);
    map c {:trigger c in copies} | c in copies :: other[Origin(onLocal, plan, c).path]
  }

  function CopyOf(a: Action): Path {
    if a.ConflictLocal? || a.ConflictRemote? then a.copy else []
  }

  ghost function Origin(onLocal: bool, plan: seq<Action>, c: Path): (a: Action)
    requires CopiedTo(onLocal, plan, c)
    ensures a in plan && CopiesTo(onLocal, a) && a.copy == c
  {
    var a :| a in plan && CopiesTo(onLocal, a) && a.copy == c;
    a
  }

  // ---- every planned action is sound --------------------------------------------------------------

  ghost predicate Good(task: Task, l: Tree, r: Tree, i: Index, plan: seq<Action>, w: World) {
    && Setting(task, l, r, i, plan) && FinalWorld(task, l, r, plan, w)
    && NoClash(l, r) && NothingKeptUnderDeletes(r, plan) && HarmlessCopies(l, r, plan)
  }

  /** Harmless copies do not show in what becomes of a kept path, nor of a side's own path that goes. */
  lemma FinalAt(task: Task, l: Tree, r: Tree, i: Index, plan: seq<Action>, w: World, p: Path)
    requires Good(task, l, r, i, plan, w)
    ensures (p in l || p in r) && !Gone(plan, p) ==>
              && At(w.fl, p) == Some(KeptNode(PrefersLocal(task, true), l, r, p))
              && At(w.fr, p) == Some(KeptNode(PrefersLocal(task, false), l, r, p))
    ensures Gone(plan, p) && p in l ==> p !in w.fl
    ensures Gone(plan, p) && p in r ==> p !in w.fr
  {
    if CopiedTo(true, plan, p) {
      var a := Origin(true, plan, p);
      PlannedBecause(task, l, r, i, plan, a);
    }
    if CopiedTo(false, plan, p) {
      var a := Origin(false, plan, p);
      PlannedBecause(task, l, r, i, plan, a);
    }
  }

  lemma ParentsFinal(task: Task, l: Tree, r: Tree, i: Index, plan: seq<Action>, w: World, p: Path)
    requires Good(task, l, r, i, plan, w)
    requires (p in l || p in r) && !Gone(plan, p)
    ensures forall d :: d != [] && Inside(p, d) ==> DirOk(l, w.fl, d) && DirOk(r, w.fr, d)
  {
    forall d | d != [] && Inside(p, d) ensures DirOk(l, w.fl, d) && DirOk(r, w.fr, d) {
      ParentsKept(task, l, r, i, plan, p, d);
      FinalAt(task, l, r, i, plan, w, d);
    }
  }

  lemma DirSound(task: Task, l: Tree, r: Tree, i: Index, plan: seq<Action>, w: World, a: Action)
    requires Good(task, l, r, i, plan, w)
    requires a in plan && (a.CreateDirLocal? || a.CreateDirRemote?)
    ensures Sound(w, a)
  {
    var p := a.path;
    PlannedBecause(task, l, r, i, plan, a);
    DecidedNotGone(task, l, r, i, plan, a);
    ParentsFinal(task, l, r, i, plan, w, p);
    FinalAt(task, l, r, i, plan, w, p);
    assert !ClashAt(l, r, p);
    forall d | d != [] && Covers(d, p)
      ensures a.CreateDirLocal? ==> DirOk(l, w.fl, d)
      ensures a.CreateDirRemote? ==> DirOk(r, w.fr, d)
    {
      assert d != p ==> Inside(p, d);
    }
  }

  lemma TransferSound(task: Task, l: Tree, r: Tree, i: Index, plan: seq<Action>, w: World, a: Action)
    requires Good(task, l, r, i, plan, w)
    requires a in plan && (a.UploadFile? || a.DownloadFile? || IsConflict(a))
    ensures Sound(w, a)
  {
    var p := a.path;
    PlannedBecause(task, l, r, i, plan, a);
    DecidedNotGone(task, l, r, i, plan, a);
    ParentsFinal(task, l, r, i, plan, w, p);
    FinalAt(task, l, r, i, plan, w, p);
    assert p != [];
    if IsConflict(a) {
      CopyPlace(task, l, r, i, plan, a);
      assert CopiesTo(a.ConflictLocal?, a);
    }
  }

  lemma DeleteSound(task: Task, l: Tree, r: Tree, i: Index, plan: seq<Action>, w: World, a: Action)
    requires Good(task, l, r, i, plan, w)
    requires a in plan && a.IsDelete()
    ensures Sound(w, a)
  {
    var d := a.path;
    PlannedBecause(task, l, r, i, plan, a);
    assert d != [];
    forall q | Covers(d, q) ensures a.DeleteLocal? ==> q !in w.fl ensures a.DeleteRemote? ==> q !in w.fr {
      assert q != d ==> Inside(q, d);
      FinalAt(task, l, r, i, plan, w, q);
      if q != d && CopiedTo(a.DeleteLocal?, plan, q) {
        CopyPlace(task, l, r, i, plan, Origin(a.DeleteLocal?, plan, q));
      }
    }
  }

  lemma MoveSound(task: Task, l: Tree, r: Tree, i: Index, plan: seq<Action>, w: World, a: Action)
    requires Good(task, l, r, i, plan, w)
    requires a in plan && a.IsMove()
    ensures Sound(w, a)
  {
    assert MoveOf(l, r, i, a) && MovedFrom(plan, a.src);
    MoveEndNotGone(task, l, r, i, plan, a);
    ParentsFinal(task, l, r, i, plan, w, a.path);
    FinalAt(task, l, r, i, plan, w, a.path);
    FinalAt(task, l, r, i, plan, w, a.src);
    assert a.path != [];
  }

  // ---- every changed path is reached --------------------------------------------------------------

  lemma TakenAwayReached(task: Task, l: Tree, r: Tree, i: Index, plan: seq<Action>, p: Path) returns (a: Action)
    requires Partition(task, l, r, i, plan) && Gone(plan, p)
    ensures a in plan
    ensures p in l ==> ClearsLocal(a, p)
    ensures p in r ==> ClearsRemote(a, p)
  {
    GoneOf(task, l, r, i, plan, p);
    if DeletedLocally(plan, p) {
      a :| a in plan && a.DeleteLocal? && a.path == p;
    } else if DeletedRemotely(plan, p) {
      a :| a in plan && a.DeleteRemote? && a.path == p;
    } else {
      a :| a in plan && a.IsMove() && a.src == p;
      assert MoveOf(l, r, i, a);
    }
  }

  lemma BroughtReachedLocal(task: Task, l: Tree, r: Tree, i: Index, plan: seq<Action>, p: Path) returns (a: Action)
    requires Partition(task, l, r, i, plan) && !Gone(plan, p) && p != [] && !ClashAt(l, r, p)
    requires p in r && (p !in l || (Conflicting(l, r, p) && task.policy == PreferRemote))
    ensures a in plan && (WritesLocal(a, p) || a == CreateDirLocal(p))
  {
    if b :| b in plan && b.MoveLocal? && b.path == p {
      a := b;
    } else {
      assert forall m :: m in plan ==> MoveOf(l, r, i, m);
      KeptNotConsumed(task, l, r, i, plan, p);
      PlannedFor(task, l, r, i, plan, p);
      a := if r[p].Dir? then CreateDirLocal(p) else DownloadFile(p);
    }
  }

  lemma BroughtReachedRemote(task: Task, l: Tree, r: Tree, i: Index, plan: seq<Action>, p: Path) returns (a: Action)
    requires Partition(task, l, r, i, plan) && !Gone(plan, p) && p != [] && !ClashAt(l, r, p)
    requires p in l && (p !in r || (Conflicting(l, r, p) && task.policy == PreferLocal))
    ensures a in plan && RemoteTarget(a, p)
  {
    if b :| b in plan && b.MoveRemote? && b.path == p {
      a := b;
    } else {
      assert forall m :: m in plan ==> MoveOf(l, r, i, m);
      KeptNotConsumed(task, l, r, i, plan, p);
      PlannedFor(task, l, r, i, plan, p);
      a := if l[p].Dir? then CreateDirRemote(p) else UploadFile(p);
    }
  }

  lemma ReachesLocal(task: Task, l: Tree, r: Tree, i: Index, plan: seq<Action>, f: Tree, p: Path) returns (a: Action)
    requires Partition(task, l, r, i, plan) && FinalTree(task, true, l, r, plan, f) && [] !in r && !ClashAt(l, r, p)
    requires At(l, p) != At(f, p)
    ensures a in plan && LocalTarget(a, p)
  {
    if CopiedTo(true, plan, p) {
      a := Origin(true, plan, p);
    } else if Gone(plan, p) {
      a := TakenAwayReached(task, l, r, i, plan, p);
    } else {
      a := BroughtReachedLocal(task, l, r, i, plan, p);
    }
  }

  lemma ReachesRemote(task: Task, l: Tree, r: Tree, i: Index, plan: seq<Action>, f: Tree, p: Path) returns (a: Action)
    requires Partition(task, l, r, i, plan) && FinalTree(task, false, l, r, plan, f) && [] !in l && !ClashAt(l, r, p)
    requires At(r, p) != At(f, p)
    ensures a in plan && RemoteTarget(a, p)
  {
    if CopiedTo(false, plan, p) {
      a := Origin(false, plan, p);
    } else if Gone(plan, p) {
      a := TakenAwayReached(task, l, r, i, plan, p);
    } else {
      a := BroughtReachedRemote(task, l, r, i, plan, p);
    }
  }

  // ---- the run -----------------------------------------------------------------------------------

  lemma ActionSound(task: Task, l: Tree, r: Tree, i: Index, plan: seq<Action>, w: World, a: Action)
    requires Good(task, l, r, i, plan, w) && a in plan
    ensures Sound(w, a)
  {
    match a
    case CreateDirLocal(_) => DirSound(task, l, r, i, plan, w, a);
    case CreateDirRemote(_) => DirSound(task, l, r, i, plan, w, a);
    case DeleteLocal(_, _) => DeleteSound(task, l, r, i, plan, w, a);
    case DeleteRemote(_, _) => DeleteSound(task, l, r, i, plan, w, a);
    case MoveLocal(_, _) => MoveSound(task, l, r, i, plan, w, a);
    case MoveRemote(_, _) => MoveSound(task, l, r, i, plan, w, a);
    case RefreshMetadata(_) =>
    case _ => TransferSound(task, l, r, i, plan, w, a);
  }

  /** No planned action but its own move clears a moved path, deletes of a directory above it aside. */
  lemma MoveSourceKept(task: Task, l: Tree, r: Tree, i: Index, plan: seq<Action>, m: Action, b: Action)
    requires Setting(task, l, r, i, plan) && m in plan && b in plan
    ensures m.MoveLocal? && ClearsLocal(b, m.src) ==> b == m
    ensures m.MoveRemote? && ClearsRemote(b, m.src) ==> b == m || b.DeleteRemote?
  {
    if m.IsMove() {
      assert MoveOf(l, r, i, m) && Consumed(plan, m.src);
      if b.DeleteLocal? {
        PlannedBecause(task, l, r, i, plan, b);
        assert Covers(b.path, m.src) ==> Inside(m.src, b.path);
      }
    }
  }

  lemma ScheduleReady(task: Task, l: Tree, r: Tree, i: Index, plan: seq<Action>, acts: seq<Action>)
    requires Setting(task, l, r, i, plan) && Within(plan, acts) && MovesBeforeDeletes(acts)
    ensures MovesReady(acts)
  {
    forall k, j | 0 <= j < k < |acts| && acts[k].MoveLocal? && ClearsLocal(acts[j], acts[k].src)
      ensures OccursBy(acts, j, acts[k])
    {
      assert acts[j] in acts && acts[k] in acts;
      MoveSourceKept(task, l, r, i, plan, acts[k], acts[j]);
    }
    forall k, j | 0 <= j < k < |acts| && acts[k].MoveRemote? && ClearsRemote(acts[j], acts[k].src)
      ensures OccursBy(acts, j, acts[k])
    {
      assert acts[j] in acts && acts[k] in acts;
      MoveSourceKept(task, l, r, i, plan, acts[k], acts[j]);
    }
  }

  /** In a good setting the order-insensitivity theorem applies. */
  lemma GoodSettles(task: Task, l: Tree, r: Tree, i: Index, plan: seq<Action>, w: World, acts: seq<Action>)
    requires Good(task, l, r, i, plan, w) && CarriesOut(plan, acts) && MovesBeforeDeletes(acts)
    ensures AllSound(w, acts) && MovesReady(acts) && Reaches(w, acts)
  {
    forall k | 0 <= k < |acts| ensures Sound(w, acts[k]) {
      assert acts[k] in acts;
      ActionSound(task, l, r, i, plan, w, acts[k]);
    }
    ScheduleReady(task, l, r, i, plan, acts);
    forall p | At(l, p) != At(w.fl, p) ensures LocalReached(acts, p) {
      assert !ClashAt(l, r, p);
      var a := ReachesLocal(task, l, r, i, plan, w.fl, p);
      assert a in acts;
    }
    forall p | At(r, p) != At(w.fr, p) ensures RemoteReached(acts, p) {
      assert !ClashAt(l, r, p);
      var a := ReachesRemote(task, l, r, i, plan, w.fr, p);
      assert a in acts;
    }
  }

  /** Under any policy, every schedule of the plan ends in the final trees. */
  lemma RunReachesFinal(task: Task, l: Tree, r: Tree, i: Index, plan: seq<Action>, w: World, acts: seq<Action>)
    requires Good(task, l, r, i, plan, w) && Schedule(plan, acts) && MovesBeforeDeletes(acts)
    ensures Run(acts, Sides(l, r)) == Done(Sides(w.fl, w.fr))
  {
    GoodSettles(task, l, r, i, plan, w, acts);
    RunSettles(w, acts);
  }

  /** So does performing the planned actions any number of times each, and each takes effect. */
  lemma PerformReachesFinal(task: Task, l: Tree, r: Tree, i: Index, plan: seq<Action>, w: World, acts: seq<Action>)
    requires Good(task, l, r, i, plan, w) && CarriesOut(plan, acts) && MovesBeforeDeletes(acts)
    ensures Perform(acts, Sides(l, r)) == Sides(w.fl, w.fr) && EachTookEffect(plan, acts, Sides(l, r))
  {
    GoodSettles(task, l, r, i, plan, w, acts);
    PerformSettles(w, acts);
    forall a | a in plan ensures TookEffect(acts, Sides(l, r), a) {
      var k := FirstOccurrence(acts, a);
      OccurrenceTakesEffect(w, acts, k);
    }
  }

  predicate Converged(o: Outcome) {
    o.Done? && o.sides.local == o.sides.remote
  }

  /** Every planned action took effect and the sides are equal. */
  ghost predicate CarriedThrough(plan: seq<Action>, acts: seq<Action>, s: Sides) {
    EachTookEffect(plan, acts, s) && Perform(acts, s).local == Perform(acts, s).remote
  }

  /** The world of a run under a prefer policy: both sides are to end in the target. */
  lemma TargetWorld(task: Task, l: Tree, r: Tree, i: Index, plan: seq<Action>)
    requires Setting(task, l, r, i, plan) && task.policy != KeepBoth
    requires NoClash(l, r) && NothingKeptUnderDeletes(r, plan)
    ensures Good(task, l, r, i, plan, World(l, r, Target(task, l, r, plan), Target(task, l, r, plan)))
  {
    forall a | a in plan ensures !IsConflict(a) {
      if !a.IsMove() { PlannedBecause(task, l, r, i, plan, a); }
    }
    var fl := FinalTreeExists(task, true, l, r, i, plan);
    var fr := FinalTreeExists(task, false, l, r, i, plan);
  }

  lemma ConvergesIf(task: Task, l: Tree, r: Tree, i: Index, plan: seq<Action>, acts: seq<Action>)
    requires Setting(task, l, r, i, plan) && task.policy != KeepBoth && CarriesOut(plan, acts)
    requires NoClash(l, r) && NothingKeptUnderDeletes(r, plan) && MovesBeforeDeletes(acts)
    ensures CarriedThrough(plan, acts, Sides(l, r))
    ensures Perform(acts, Sides(l, r)) == Sides(Target(task, l, r, plan), Target(task, l, r, plan))
    ensures LocalMovesOnce(acts) ==> Run(acts, Sides(l, r)) == Done(Perform(acts, Sides(l, r)))
  {
    var t := Target(task, l, r, plan);
    TargetWorld(task, l, r, i, plan);
    PerformReachesFinal(task, l, r, i, plan, World(l, r, t, t), acts);
    if LocalMovesOnce(acts) {
      RunReachesFinal(task, l, r, i, plan, World(l, r, t, t), acts);
    }
  }

  // ---- and only if ---------------------------------------------------------------------------------

  lemma ClashPersists(task: Task, l: Tree, r: Tree, i: Index, plan: seq<Action>, acts: seq<Action>, p: Path)
    requires Setting(task, l, r, i, plan) && task.policy != KeepBoth && Within(plan, acts) && ClashAt(l, r, p)
    ensures ClashAt(Perform(acts, Sides(l, r)).local, Perform(acts, Sides(l, r)).remote, p)
  {
    forall a | a in acts ensures !ClearsLocal(a, p) && !ClearsRemote(a, p) {
      if a.IsMove() { assert MoveOf(l, r, i, a); } else { PlannedBecause(task, l, r, i, plan, a); }
      assert a.IsDelete() && Covers(a.path, p) && a.path != p ==> Inside(p, a.path);
    }
    forall a | a in acts ensures !WritesLocal(a, p) && !WritesRemote(a, p) {
      if a.IsMove() { assert MoveOf(l, r, i, a); } else { PlannedBecause(task, l, r, i, plan, a); }
    }
    LocalKept(acts, Sides(l, r), p);
    RemoteKept(acts, Sides(l, r), p);
  }

  /** Whatever of the plan is performed, once the directory was deleted and the kept entry was brought to the
      local side, it is there and not on the remote. */
  lemma KeptUnderDeleteDiverges(task: Task, l: Tree, r: Tree, i: Index, plan: seq<Action>, acts: seq<Action>,
                                d: Path, p: Path)
    requires Setting(task, l, r, i, plan) && task.policy != KeepBoth && Within(plan, acts)
    requires DeletedRemotely(plan, d) && p in r && Covers(d, p) && !Gone(plan, p)
    requires RemoteReached(acts, d) && LocalEffect(acts, Sides(l, r), p)
    ensures p in Perform(acts, Sides(l, r)).local && p !in Perform(acts, Sides(l, r)).remote
  {
    KeptIsNew(task, l, r, i, plan, d, p);
    forall b | b in acts ensures !ClearsLocal(b, p) && !WritesRemote(b, p) && !MakesDirRemote(b, p) {
      OnlyDeletesClear(task, l, r, i, plan, d, p, b);
    }
    var a :| TookEffect(acts, Sides(l, r), a) && LocalTarget(a, p);
    var k: nat :| k < |acts| && acts[k] == a && TakesEffect(acts, Sides(l, r), k);
    assert a in acts;
    BroughtStays(acts, Sides(l, r), k, p);
    var del := ClearedBy(task, l, r, i, plan, acts, d);
    ClearedStays(acts, Sides(l, r), del, p);
  }

  lemma KeptIsNew(task: Task, l: Tree, r: Tree, i: Index, plan: seq<Action>, d: Path, p: Path)
    requires Setting(task, l, r, i, plan) && DeletedRemotely(plan, d) && p in r && Covers(d, p) && !Gone(plan, p)
    ensures p != [] && d != [] && p !in l && d !in l && d in r && Inside(p, d) && !Consumed(plan, d)
  {
    GoneOf(task, l, r, i, plan, d);
    assert p != d by { assert DeletedRemotely(plan, d); }
    assert Inside(p, d);
  }

  lemma OnlyDeletesClear(task: Task, l: Tree, r: Tree, i: Index, plan: seq<Action>, d: Path, p: Path, b: Action)
    requires Setting(task, l, r, i, plan) && task.policy != KeepBoth && b in plan
    requires DeletedRemotely(plan, d) && p in r && Covers(d, p) && !Gone(plan, p)
    ensures !ClearsLocal(b, p) && !WritesRemote(b, p) && !MakesDirRemote(b, p)
  {
    KeptIsNew(task, l, r, i, plan, d, p);
    if b.IsMove() { assert MoveOf(l, r, i, b); } else { PlannedBecause(task, l, r, i, plan, b); }
    assert b.DeleteLocal? && Covers(b.path, p) ==> Inside(p, b.path);
    assert b.CreateDirRemote? && Covers(p, b.path) && p != b.path ==> Inside(b.path, p);
  }

  /** What reaches a directory that is to be deleted on the remote is a delete of it or of one above. */
  lemma ClearedBy(task: Task, l: Tree, r: Tree, i: Index, plan: seq<Action>, acts: seq<Action>, d: Path)
    returns (del: Action)
    requires Setting(task, l, r, i, plan) && task.policy != KeepBoth && Within(plan, acts)
    requires d != [] && d !in l && !Consumed(plan, d) && RemoteReached(acts, d)
    ensures del in acts && del.DeleteRemote? && Covers(del.path, d)
  {
    var k: nat :| k < |acts| && RemoteTarget(acts[k], d);
    del := acts[k];
    assert del in acts;
    if del.IsMove() { assert MoveOf(l, r, i, del); } else { PlannedBecause(task, l, r, i, plan, del); }
    assert del.CreateDirRemote? && Covers(d, del.path) && d != del.path ==> Inside(del.path, d);
  }

  lemma LateMoveDiverges(task: Task, l: Tree, r: Tree, i: Index, plan: seq<Action>, acts: seq<Action>, j: nat, k: nat)
    requires Setting(task, l, r, i, plan) && task.policy != KeepBoth && Within(plan, acts)
    requires j < k < |acts| && DeletesUnder(acts[j], acts[k])
    requires !OccursBy(acts, j, acts[k])
    ensures acts[k].path in Perform(acts, Sides(l, r)).local && acts[k].path !in Perform(acts, Sides(l, r)).remote
  {
    var m := acts[k];
    assert m in acts && acts[j] in acts;
    assert MoveOf(l, r, i, m) && Consumed(plan, m.src) && Consumed(plan, m.path);
    forall b | b in acts
      ensures !ClearsLocal(b, m.path)
      ensures !MakesDirRemote(b, m.path) && (b == m || !WritesRemote(b, m.path))
      ensures !MakesDirRemote(b, m.src) && !WritesRemote(b, m.src)
    {
      if b.IsMove() { assert MoveOf(l, r, i, b); } else { PlannedBecause(task, l, r, i, plan, b); }
      assert b.DeleteLocal? && Covers(b.path, m.path) && b.path != m.path ==> Inside(m.path, b.path);
      assert b.CreateDirRemote? && Covers(m.path, b.path) && m.path != b.path ==> Inside(b.path, m.path);
      assert b.CreateDirRemote? && Covers(m.src, b.path) && m.src != b.path ==> Inside(b.path, m.src);
    }
    LocalKept(acts, Sides(l, r), m.path);
    assert forall n :: 0 <= n < |acts| ==> acts[n] in acts && LeavesEnds(acts[n], m);
    LateMoveIsLost(acts, Sides(l, r), j, m);
  }

  /** Some action that can change the path took effect. */
  ghost predicate LocalEffect(acts: seq<Action>, s: Sides, p: Path) {
    exists a :: TookEffect(acts, s, a) && LocalTarget(a, p)
  }

  ghost predicate RemoteEffect(acts: seq<Action>, s: Sides, p: Path) {
    exists a :: TookEffect(acts, s, a) && RemoteTarget(a, p)
  }

  /** Every path that the plan is to change, clashes aside, is one that an action which took effect can change. */
  ghost predicate Delivered(task: Task, l: Tree, r: Tree, plan: seq<Action>, acts: seq<Action>) {
    forall p :: !ClashAt(l, r, p) ==>
      && (At(l, p) != At(Target(task, l, r, plan), p) ==> LocalEffect(acts, Sides(l, r), p))
      && (At(r, p) != At(Target(task, l, r, plan), p) ==> RemoteEffect(acts, Sides(l, r), p))
  }

  lemma EffectReaches(acts: seq<Action>, s: Sides, p: Path)
    ensures LocalEffect(acts, s, p) ==> LocalReached(acts, p)
    ensures RemoteEffect(acts, s, p) ==> RemoteReached(acts, p)
  {
  }

  lemma DeliveredConverges(task: Task, l: Tree, r: Tree, i: Index, plan: seq<Action>, acts: seq<Action>)
    requires Setting(task, l, r, i, plan) && task.policy != KeepBoth && Within(plan, acts)
    requires Delivered(task, l, r, plan, acts)
    requires NoClash(l, r) && NothingKeptUnderDeletes(r, plan) && MovesBeforeDeletes(acts)
    ensures Perform(acts, Sides(l, r)) == Sides(Target(task, l, r, plan), Target(task, l, r, plan))
  {
    var t := Target(task, l, r, plan);
    var w := World(l, r, t, t);
    TargetWorld(task, l, r, i, plan);
    forall k | 0 <= k < |acts| ensures Sound(w, acts[k]) {
      assert acts[k] in acts;
      ActionSound(task, l, r, i, plan, w, acts[k]);
    }
    ScheduleReady(task, l, r, i, plan, acts);
    forall p
      ensures At(l, p) != At(t, p) ==> LocalReached(acts, p)
      ensures At(r, p) != At(t, p) ==> RemoteReached(acts, p)
    {
      assert !ClashAt(l, r, p);
      EffectReaches(acts, Sides(l, r), p);
    }
    PerformSettles(w, acts);
  }

  lemma DeliveredDiverges(task: Task, l: Tree, r: Tree, i: Index, plan: seq<Action>, acts: seq<Action>)
    requires Setting(task, l, r, i, plan) && task.policy != KeepBoth && Within(plan, acts)
    requires Delivered(task, l, r, plan, acts)
    requires !(NoClash(l, r) && NothingKeptUnderDeletes(r, plan) && MovesBeforeDeletes(acts))
    ensures Perform(acts, Sides(l, r)).local != Perform(acts, Sides(l, r)).remote
  {
    if p :| ClashAt(l, r, p) {
      ClashPersists(task, l, r, i, plan, acts, p);
    } else if d, p :| DeletedRemotely(plan, d) && p in r && Covers(d, p) && !Gone(plan, p) {
      KeptIsNew(task, l, r, i, plan, d, p);
      assert !ClashAt(l, r, d) && !ClashAt(l, r, p) && Gone(plan, d);
      EffectReaches(acts, Sides(l, r), d);
      KeptUnderDeleteDiverges(task, l, r, i, plan, acts, d, p);
    } else {
      var j, k :| 0 <= j < k < |acts| && DeletesUnder(acts[j], acts[k]) && !OccursBy(acts, j, acts[k]);
      LateMoveDiverges(task, l, r, i, plan, acts, j, k);
    }
  }

  /** Whatever fails on the way, and even if some of the plan is never performed: as long as what took effect
      could change every path that is to change, the trees are equal exactly under the three conditions. */
  lemma DeliveredConvergesExactly(task: Task, l: Tree, r: Tree, i: Index, plan: seq<Action>, acts: seq<Action>)
    requires Setting(task, l, r, i, plan) && task.policy != KeepBoth && Within(plan, acts)
    requires Delivered(task, l, r, plan, acts)
    ensures Perform(acts, Sides(l, r)).local == Perform(acts, Sides(l, r)).remote <==>
            NoClash(l, r) && NothingKeptUnderDeletes(r, plan) && MovesBeforeDeletes(acts)
  {
    if NoClash(l, r) && NothingKeptUnderDeletes(r, plan) && MovesBeforeDeletes(acts) {
      DeliveredConverges(task, l, r, i, plan, acts);
    } else {
      DeliveredDiverges(task, l, r, i, plan, acts);
    }
  }

  /** If every planned action took effect, each such path is changed. */
  lemma AllDelivered(task: Task, l: Tree, r: Tree, i: Index, plan: seq<Action>, acts: seq<Action>)
    requires Setting(task, l, r, i, plan) && task.policy != KeepBoth && EachTookEffect(plan, acts, Sides(l, r))
    ensures Delivered(task, l, r, plan, acts)
  {
    var t := FinalTreeExists(task, true, l, r, i, plan);
    var u := FinalTreeExists(task, false, l, r, i, plan);
    forall p | !ClashAt(l, r, p)
      ensures At(l, p) != At(t, p) ==> LocalEffect(acts, Sides(l, r), p)
      ensures At(r, p) != At(t, p) ==> RemoteEffect(acts, Sides(l, r), p)
    {
      if At(l, p) != At(t, p) { var a := ReachesLocal(task, l, r, i, plan, t, p); }
      if At(r, p) != At(t, p) { var a := ReachesRemote(task, l, r, i, plan, u, p); }
    }
  }

  /** Whatever fails on the way and however often each planned action is performed: all of them took
      effect and the trees are equal exactly under the three conditions. */
  lemma PerformConvergesExactly(task: Task, l: Tree, r: Tree, i: Index, plan: seq<Action>, acts: seq<Action>)
    requires Setting(task, l, r, i, plan) && task.policy != KeepBoth && CarriesOut(plan, acts)
    ensures CarriedThrough(plan, acts, Sides(l, r)) <==>
            NoClash(l, r) && NothingKeptUnderDeletes(r, plan) && MovesBeforeDeletes(acts)
  {
    if NoClash(l, r) && NothingKeptUnderDeletes(r, plan) && MovesBeforeDeletes(acts) {
      ConvergesIf(task, l, r, i, plan, acts);
    } else if EachTookEffect(plan, acts, Sides(l, r)) {
      AllDelivered(task, l, r, i, plan, acts);
      DeliveredDiverges(task, l, r, i, plan, acts);
    }
  }

  /** The same for runs, which stop at the first failure: every plan, every order, every repetition of
      anything but a local move. */
  lemma ConvergesExactly(task: Task, l: Tree, r: Tree, i: Index, plan: seq<Action>, acts: seq<Action>)
    requires Setting(task, l, r, i, plan) && task.policy != KeepBoth && Schedule(plan, acts)
    ensures Converged(Run(acts, Sides(l, r))) <==>
            NoClash(l, r) && NothingKeptUnderDeletes(r, plan) && MovesBeforeDeletes(acts)
  {
    var s := Sides(l, r);
    RunIsPerform(acts, s);
    PerformConvergesExactly(task, l, r, i, plan, acts);
    if Run(acts, s).Done? {
      forall a | a in plan ensures TookEffect(acts, s, a) {
        var k := FirstOccurrence(acts, a);
      }
    }
    if NoClash(l, r) && NothingKeptUnderDeletes(r, plan) && MovesBeforeDeletes(acts) {
      ConvergesIf(task, l, r, i, plan, acts);
    }
  }
}
