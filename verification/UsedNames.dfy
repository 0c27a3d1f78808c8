/** Exactly which used conflict names do harm: keep_both loses nothing in any order of a plan if and only if
    every used conflict name is used for the very content that is copied there. */
module UsedNames {
  import opened Trees
  import opened Actions
  import opened Settling
  import opened ConflictNames
  import opened FileIndex
  import opened Planner
  import opened Convergence
  import opened KeepBoth
  import opened Stability
  import opened Replans

  ghost predicate KeepBothSetting(task: Task, l: Tree, r: Tree, i: Index, plan: seq<Action>) {
    && PrefixClosed(l) && PrefixClosed(r) && NoClash(l, r) && BidirectionalPlan(task, l, r, i, plan)
    && task.policy.KeepBoth? && !task.mirror
  }

  ghost predicate NeverLoses(l: Tree, r: Tree, i: Index, plan: seq<Action>) {
    forall acts :: Schedule(plan, acts) ==> NothingLost(l, r, i, plan, Run(acts, Sides(l, r)))
  }

  // ---- putting an action last ---------------------------------------------------------------------

  function Others(plan: seq<Action>, x: Action): seq<Action> {
    if plan == [] then []
    else
      var n := |plan| - 1;
      Others(plan[..n], x) + if plan[n] == x then [] else [plan[n]]
  }

  lemma {:induction false} OthersAre(plan: seq<Action>, x: Action)
    ensures forall a :: a in Others(plan, x) <==> a in plan && a != x
    ensures NoRepeats(plan) ==> NoRepeats(Others(plan, x))
  {
    if plan != [] {
      var n := |plan| - 1;
      var front := Others(plan[..n], x);
      OthersAre(plan[..n], x);
      assert plan == plan[..n] + [plan[n]];
      assert forall k :: 0 <= k < |front| ==> front[k] in front;
      assert NoRepeats(plan) ==> plan[n] !in plan[..n];
    }
  }

  lemma PutLast(plan: seq<Action>, x: Action)
    requires NoRepeats(plan) && x in plan
    ensures Schedule(plan, Others(plan, x) + [x])
  {
    var before := Others(plan, x);
    OthersAre(plan, x);
    var acts := before + [x];
    assert forall a :: a in acts <==> a in before || a == x;
    assert forall k :: 0 <= k < |before| ==> acts[k] == before[k] && before[k] in before;
    assert NoRepeats(acts);
  }

  /** Under the assumption the planned action can come last: what its step ends in has lost nothing. */
  lemma LastStep(task: Task, l: Tree, r: Tree, i: Index, plan: seq<Action>, x: Action) returns (s: Sides, t: Sides)
    requires KeepBothSetting(task, l, r, i, plan) && NeverLoses(l, r, i, plan) && x in plan
    ensures s == Perform(Others(plan, x), Sides(l, r)) && Apply(x, s) == Done(t)
    ensures NothingLost(l, r, i, plan, Done(t))
  {
    var before := Others(plan, x);
    PutLast(plan, x);
    assert NothingLost(l, r, i, plan, Run(before + [x], Sides(l, r)));
    RunSnoc(before, x, Sides(l, r));
    RunIsPerform(before, Sides(l, r));
    s := Perform(before, Sides(l, r));
    t := Apply(x, s).sides;
  }

  /** Both copies of a conflict are among what is not lost. */
  lemma CopyLeft(l: Tree, r: Tree, i: Index, plan: seq<Action>, a: Action, t: Sides)
    requires NothingLost(l, r, i, plan, Done(t)) && IsConflict(a) && Conflicting(l, r, a.path)
    requires a.copy == CopyName(i, a.path, MarkerOf(a))
    ensures a.ConflictLocal? ==> At(t.local, a.copy) == At(r, a.path)
    ensures a.ConflictRemote? ==> At(t.remote, a.copy) == At(l, a.path)
  {
  }

  lemma BodyLeft(l: Tree, r: Tree, i: Index, plan: seq<Action>, t: Sides, p: Path)
    requires NothingLost(l, r, i, plan, Done(t))
    ensures IsFile(At(l, p)) ==> BodyAt(plan, t.local, p, At(l, p))
    ensures IsFile(At(r, p)) ==> BodyAt(plan, t.remote, p, At(r, p))
  {
  }

  /** Nothing is deleted, so what goes is moved away. */
  lemma GoneIsMoved(task: Task, l: Tree, r: Tree, i: Index, plan: seq<Action>, p: Path)
    requires KeepBothSetting(task, l, r, i, plan)
    ensures Gone(plan, p) <==> MovedFrom(plan, p)
  {
    NothingTaken(task, l, r, i, plan, p);
  }

  lemma StaysAt(plan: seq<Action>, t: Tree, p: Path, n: Option<Node>)
    requires BodyAt(plan, t, p, n) && !MovedFrom(plan, p)
    ensures At(t, p) == n
  {
  }

  /** A move's body stays at its new place if it is no longer at the old one. */
  lemma MovedTo(l: Tree, r: Tree, i: Index, plan: seq<Action>, m: Action, t: Tree, n: Option<Node>)
    requires MovesOk(l, r, i, plan) && m in plan && m.IsMove()
    requires BodyAt(plan, t, m.src, n) && n.Some? && m.src !in t
    ensures At(t, m.path) == n
  {
    var q :| KeptPlace(plan, m.src, q) && At(t, q) == n;
    var k :| k in plan && k.IsMove() && k.src == m.src && k.path == q;
    assert k == m;
  }

  lemma CopyIs(task: Task, l: Tree, r: Tree, i: Index, plan: seq<Action>, a: Action)
    requires KeepBothSetting(task, l, r, i, plan) && a in plan && IsConflict(a)
    ensures Conflicting(l, r, a.path) && a.copy != [] && forall d :: Inside(a.copy, d) <==> Inside(a.path, d)
    ensures a.copy == CopyName(i, a.path, MarkerOf(a))
  {
    CopyPlace(task, l, r, i, plan, a);
    PlannedBecause(task, l, r, i, plan, a);
  }

  // ---- names used on the local side ---------------------------------------------------------------

  /** A local move that comes last leaves nothing at its source. */
  lemma LocalMoveLast(task: Task, l: Tree, r: Tree, i: Index, plan: seq<Action>, m: Action) returns (t: Sides)
    requires KeepBothSetting(task, l, r, i, plan) && NeverLoses(l, r, i, plan) && m in plan && m.MoveLocal?
    ensures NothingLost(l, r, i, plan, Done(t)) && m.src !in t.local
  {
    assert MoveOf(l, r, i, m);
    var s;
    s, t := LastStep(task, l, r, i, plan, m);
  }

  /** No local move takes away what is at the name of a local copy. */
  lemma LocalNameNotMoved(task: Task, l: Tree, r: Tree, i: Index, plan: seq<Action>, a: Action, m: Action)
    requires KeepBothSetting(task, l, r, i, plan) && NeverLoses(l, r, i, plan)
    requires a in plan && a.ConflictLocal? && m in plan && m.MoveLocal?
    ensures m.src != a.copy
  {
    CopyIs(task, l, r, i, plan, a);
    var t := LocalMoveLast(task, l, r, i, plan, m);
    CopyLeft(l, r, i, plan, a, t);
  }

  /** What the local side has at the name of a local copy is its content, and stays. */
  lemma LocalNameOwn(task: Task, l: Tree, r: Tree, i: Index, plan: seq<Action>, a: Action)
    requires KeepBothSetting(task, l, r, i, plan) && NeverLoses(l, r, i, plan)
    requires a in plan && a.ConflictLocal? && a.copy in l
    ensures At(l, a.copy) == At(r, a.path) && !Gone(plan, a.copy)
  {
    GoneIsMoved(task, l, r, i, plan, a.copy);
    forall m | m in plan && m.IsMove() ensures m.src != a.copy {
      assert MoveOf(l, r, i, m);
      if m.MoveLocal? { LocalNameNotMoved(task, l, r, i, plan, a, m); }
    }
    var t := LocalCopyMade(task, l, r, i, plan, a);
    if IsFile(At(l, a.copy)) {
      StaysAt(plan, t.local, a.copy, At(l, a.copy));
    }
  }

  /** The step that makes a local copy last leaves the copy there, and a directory where one was. */
  lemma LocalCopyMade(task: Task, l: Tree, r: Tree, i: Index, plan: seq<Action>, a: Action) returns (t: Sides)
    requires KeepBothSetting(task, l, r, i, plan) && NeverLoses(l, r, i, plan) && a in plan && a.ConflictLocal?
    ensures NothingLost(l, r, i, plan, Done(t)) && At(t.local, a.copy) == At(r, a.path) && IsFile(At(r, a.path))
    ensures !IsDir(At(l, a.copy))
  {
    CopyIs(task, l, r, i, plan, a);
    var s;
    s, t := LastStep(task, l, r, i, plan, a);
    if IsDir(At(l, a.copy)) {
      OthersAre(plan, a);
      DirStaysLocal(task, l, r, i, plan, a.copy, Others(plan, a));
      LocalChange(a, s, a.copy);
    }
  }

  /** Whatever planned actions are performed, a local directory stays. */
  lemma DirStaysLocal(task: Task, l: Tree, r: Tree, i: Index, plan: seq<Action>, d: Path, acts: seq<Action>)
    requires KeepBothSetting(task, l, r, i, plan) && IsDir(At(l, d)) && forall b :: b in acts ==> b in plan
    ensures IsDir(At(Perform(acts, Sides(l, r)).local, d))
  {
    forall b | b in acts ensures !ClearsLocal(b, d) {
      assert MoveOf(l, r, i, b);
      NothingTaken(task, l, r, i, plan, b.path);
    }
    LocalKept(acts, Sides(l, r), d);
  }

  /** What only the remote has at the name of a local copy, and is to keep, is its content. */
  lemma LocalNameOther(task: Task, l: Tree, r: Tree, i: Index, plan: seq<Action>, a: Action)
    requires KeepBothSetting(task, l, r, i, plan) && NeverLoses(l, r, i, plan)
    requires a in plan && a.ConflictLocal? && a.copy !in l && a.copy in r && !Gone(plan, a.copy)
    ensures At(r, a.copy) == At(r, a.path)
  {
    var c := a.copy;
    if m :| m in plan && m.MoveLocal? && m.path == c {
      LocalNameMovedTo(task, l, r, i, plan, a, m);
    } else {
      assert forall m :: m in plan ==> MoveOf(l, r, i, m);
      KeptNotConsumed(task, l, r, i, plan, c);
      NothingTaken(task, l, r, i, plan, c);
      assert !ClashAt(l, r, c);
      PlannedFor(task, l, r, i, plan, c);
      LocalNameNoDir(task, l, r, i, plan, a);
      LocalNameDownloaded(task, l, r, i, plan, a);
    }
  }

  lemma LocalNameMovedTo(task: Task, l: Tree, r: Tree, i: Index, plan: seq<Action>, a: Action, m: Action)
    requires KeepBothSetting(task, l, r, i, plan) && NeverLoses(l, r, i, plan)
    requires a in plan && a.ConflictLocal? && m in plan && m.MoveLocal? && m.path == a.copy
    ensures At(r, a.copy) == At(r, a.path)
  {
    CopyIs(task, l, r, i, plan, a);
    var t := LocalMoveLast(task, l, r, i, plan, m);
    CopyLeft(l, r, i, plan, a, t);
    BodyLeft(l, r, i, plan, t, m.src);
    assert MoveOf(l, r, i, m);
    MovedTo(l, r, i, plan, m, t.local, At(l, m.src));
  }

  lemma LocalNameDownloaded(task: Task, l: Tree, r: Tree, i: Index, plan: seq<Action>, a: Action)
    requires KeepBothSetting(task, l, r, i, plan) && NeverLoses(l, r, i, plan)
    requires a in plan && a.ConflictLocal? && DownloadFile(a.copy) in plan && !Gone(plan, a.copy)
    ensures At(r, a.copy) == At(r, a.path)
  {
    var c := a.copy;
    CopyIs(task, l, r, i, plan, a);
    GoneIsMoved(task, l, r, i, plan, c);
    PlannedBecause(task, l, r, i, plan, DownloadFile(c));
    var s, t := LastStep(task, l, r, i, plan, DownloadFile(c));
    StaysAt(plan, t.remote, c, At(r, c));
    WriteFileAt(s.local, c, s.remote[c].body, c);
  }

  lemma DirMade(s: Sides, t: Sides, c: Path)
    requires c != [] && Apply(CreateDirLocal(c), s) == Done(t)
    ensures IsDir(At(t.local, c))
  {
    assert Covers(c, c);
    assert !FileAtOrAbove(s.local, c) && t.local == WithDirs(s.local, c);
  }

  lemma LocalNameNoDir(task: Task, l: Tree, r: Tree, i: Index, plan: seq<Action>, a: Action)
    requires KeepBothSetting(task, l, r, i, plan) && NeverLoses(l, r, i, plan) && a in plan && a.ConflictLocal?
    ensures CreateDirLocal(a.copy) !in plan
  {
    CopyIs(task, l, r, i, plan, a);
    if CreateDirLocal(a.copy) in plan {
      var s, t := LastStep(task, l, r, i, plan, CreateDirLocal(a.copy));
      DirMade(s, t, a.copy);
    }
  }

  // ---- names used on the remote side --------------------------------------------------------------

  /** No planned action makes a directory where the local side has none. */
  lemma NeverADirRemote(task: Task, l: Tree, r: Tree, i: Index, plan: seq<Action>, p: Path, acts: seq<Action>)
    requires KeepBothSetting(task, l, r, i, plan) && !IsDir(At(l, p)) && !IsDir(At(r, p)) && p != []
    requires forall b :: b in acts ==> b in plan
    ensures !IsDir(At(Perform(acts, Sides(l, r)).remote, p))
  {
    if acts != [] {
      var n := |acts| - 1;
      assert acts[n] in acts;
      NeverADirRemote(task, l, r, i, plan, p, acts[..n]);
      RemoteChange(acts[n], Perform(acts[..n], Sides(l, r)), p);
      if acts[n].CreateDirRemote? {
        PlannedBecause(task, l, r, i, plan, acts[n]);
        assert Covers(p, acts[n].path) && p != acts[n].path ==> Inside(acts[n].path, p);
      }
    }
  }

  /** Whatever planned actions are performed, a remote directory stays. */
  lemma DirStaysRemote(task: Task, l: Tree, r: Tree, i: Index, plan: seq<Action>, d: Path, acts: seq<Action>)
    requires KeepBothSetting(task, l, r, i, plan) && IsDir(At(r, d)) && forall b :: b in acts ==> b in plan
    ensures IsDir(At(Perform(acts, Sides(l, r)).remote, d))
  {
    forall b | b in acts ensures !ClearsRemote(b, d) {
      assert MoveOf(l, r, i, b);
      NothingTaken(task, l, r, i, plan, b.path);
    }
    RemoteKept(acts, Sides(l, r), d);
  }

  /** Above the place of a remote copy there are directories on the remote, whatever is performed. */
  lemma NoFileAboveCopy(task: Task, l: Tree, r: Tree, i: Index, plan: seq<Action>, a: Action, acts: seq<Action>)
    requires KeepBothSetting(task, l, r, i, plan) && a in plan && IsConflict(a) && forall b :: b in acts ==> b in plan
    ensures !FileAbove(Perform(acts, Sides(l, r)).remote, a.copy)
  {
    CopyIs(task, l, r, i, plan, a);
    forall d | d != [] && Inside(a.copy, d) ensures IsDir(At(Perform(acts, Sides(l, r)).remote, d)) {
      assert Inside(a.path, d);
      DirStaysRemote(task, l, r, i, plan, d, acts);
    }
  }

  /** Where the local side has a directory, nothing but a copy puts a file on the remote. */
  lemma {:induction false} NoFileAtLocalDir(task: Task, l: Tree, r: Tree, i: Index, plan: seq<Action>, e: Path,
                                            acts: seq<Action>)
    requires KeepBothSetting(task, l, r, i, plan) && IsDir(At(l, e))
    requires forall b :: b in acts ==> b in plan && (b.ConflictRemote? ==> b.copy != e)
    ensures !IsFile(At(Perform(acts, Sides(l, r)).remote, e))
  {
    if acts == [] {
      assert !ClashAt(l, r, e);
    } else {
      var n := |acts| - 1;
      var b := acts[n];
      assert b in acts;
      NoFileAtLocalDir(task, l, r, i, plan, e, acts[..n]);
      RemoteChange(b, Perform(acts[..n], Sides(l, r)), e);
      assert MoveOf(l, r, i, b);
      if !b.IsMove() { PlannedBecause(task, l, r, i, plan, b); }
      ClearedNotMade(b, Perform(acts[..n], Sides(l, r)), e);
    }
  }

  lemma ClearedNotMade(b: Action, s: Sides, e: Path)
    ensures !WritesRemote(b, e) && !IsFile(At(s.remote, e)) ==> !IsFile(At(Apply(b, s).sides.remote, e))
  {
    RemoteChange(b, s, e);
    if b.CreateDirRemote? { MkcolKeeps(s.remote, b.path, |b.path|, e); }
  }

  /** A local directory is made on the remote, at the name of a copy too if the copy is not made before. */
  lemma {:induction false} LocalDirMade(task: Task, l: Tree, r: Tree, i: Index, plan: seq<Action>, a: Action,
                                        acts: seq<Action>)
    requires KeepBothSetting(task, l, r, i, plan) && a in plan && a.ConflictRemote? && IsDir(At(l, a.copy))
    requires (forall b :: b in acts ==> b in plan && b != a) && CreateDirRemote(a.copy) in acts
    ensures IsDir(At(Perform(acts, Sides(l, r)).remote, a.copy))
  {
    var n, c := |acts| - 1, a.copy;
    var b, s := acts[n], Perform(acts[..n], Sides(l, r));
    assert b in acts && acts == acts[..n] + [b];
    CopyIs(task, l, r, i, plan, a);
    if b == CreateDirRemote(c) {
      forall x | x in acts[..n] ensures x in plan && (x.ConflictRemote? ==> x.copy != c) {
        assert x in acts;
        if x.ConflictRemote? && x.copy == c { CopiesDiffer(task, l, r, i, plan, a, x); }
      }
      NoFileAtLocalDir(task, l, r, i, plan, c, acts[..n]);
      NoFileAboveCopy(task, l, r, i, plan, a, acts[..n]);
      MkcolHere(s.remote, c);
    } else {
      LocalDirMade(task, l, r, i, plan, a, acts[..n]);
      RemoteChange(b, s, c);
      assert MoveOf(l, r, i, b);
      NothingTaken(task, l, r, i, plan, b.path);
    }
  }

  lemma MkcolHere(t: Tree, c: Path)
    requires c != [] && !IsFile(At(t, c)) && !FileAbove(t, c)
    ensures IsDir(At(Mkcol(t, c, |c|), c))
  {
    assert forall d :: Covers(d, c) ==> d == c || Inside(c, d);
    MkcolMakesDirs(t, c);
    assert Covers(c, c);
  }

  /** The step that makes a remote copy last leaves the copy there, where no side has a directory. */
  lemma RemoteCopyMade(task: Task, l: Tree, r: Tree, i: Index, plan: seq<Action>, a: Action) returns (t: Sides)
    requires KeepBothSetting(task, l, r, i, plan) && NeverLoses(l, r, i, plan) && a in plan && a.ConflictRemote?
    ensures NothingLost(l, r, i, plan, Done(t)) && At(t.remote, a.copy) == At(l, a.path) && IsFile(At(l, a.path))
    ensures !IsDir(At(l, a.copy)) && !IsDir(At(r, a.copy))
  {
    CopyIs(task, l, r, i, plan, a);
    var s;
    s, t := LastStep(task, l, r, i, plan, a);
    CopyLeft(l, r, i, plan, a, t);
    if IsDir(At(l, a.copy)) || IsDir(At(r, a.copy)) {
      DirAtCopy(task, l, r, i, plan, a);
      DirBlocksCopy(a, s);
    }
  }

  lemma DirBlocksCopy(a: Action, s: Sides)
    requires a.ConflictRemote? && IsDir(At(s.remote, a.copy))
    ensures IsDir(At(Apply(a, s).sides.remote, a.copy))
  {
  }

  lemma DirAtCopy(task: Task, l: Tree, r: Tree, i: Index, plan: seq<Action>, a: Action)
    requires KeepBothSetting(task, l, r, i, plan) && a in plan && a.ConflictRemote?
    requires IsDir(At(l, a.copy)) || IsDir(At(r, a.copy))
    ensures IsDir(At(Perform(Others(plan, a), Sides(l, r)).remote, a.copy))
  {
    OthersAre(plan, a);
    if IsDir(At(l, a.copy)) {
      CopyIs(task, l, r, i, plan, a);
      LocalDirPlanned(task, l, r, i, plan, a.copy);
      LocalDirMade(task, l, r, i, plan, a, Others(plan, a));
    } else {
      DirStaysRemote(task, l, r, i, plan, a.copy, Others(plan, a));
    }
  }

  lemma LocalDirPlanned(task: Task, l: Tree, r: Tree, i: Index, plan: seq<Action>, d: Path)
    requires Partition(task, l, r, i, plan) && IsDir(At(l, d))
    ensures CreateDirRemote(d) in plan
  {
    assert forall m :: m in plan ==> MoveOf(l, r, i, m);
    assert !Consumed(plan, d);
    assert CreateDirRemote(d) in Decide(task, l, r, i, d);
  }

  /** Planned actions put no file above a place that the local side has. */
  lemma NoFileAboveLocal(task: Task, l: Tree, r: Tree, i: Index, plan: seq<Action>, q: Path, acts: seq<Action>)
    requires KeepBothSetting(task, l, r, i, plan) && NeverLoses(l, r, i, plan) && q in l
    requires forall b :: b in acts ==> b in plan
    ensures !FileAbove(Perform(acts, Sides(l, r)).remote, q)
  {
    forall e | e != [] && Inside(q, e) ensures !IsFile(At(Perform(acts, Sides(l, r)).remote, e)) {
      forall b | b in acts ensures b.ConflictRemote? ==> b.copy != e {
        if b.ConflictRemote? { var t := RemoteCopyMade(task, l, r, i, plan, b); }
      }
      NoFileAtLocalDir(task, l, r, i, plan, e, acts);
    }
  }

  /** A remote move that comes last leaves nothing at its source. */
  lemma RemoteMoveLast(task: Task, l: Tree, r: Tree, i: Index, plan: seq<Action>, m: Action) returns (t: Sides)
    requires KeepBothSetting(task, l, r, i, plan) && NeverLoses(l, r, i, plan) && m in plan && m.MoveRemote?
    ensures NothingLost(l, r, i, plan, Done(t)) && m.src !in t.remote
  {
    var s;
    s, t := LastStep(task, l, r, i, plan, m);
    OthersAre(plan, m);
    MoveTaken(task, l, r, i, plan, m, Others(plan, m));
    MoveStep(m, s, t);
  }

  lemma MoveStep(m: Action, s: Sides, t: Sides)
    requires m.MoveRemote? && Apply(m, s) == Done(t)
    ensures t.remote == RemoteMove(s.remote, m.src, m.path)
  {
  }

  lemma MoveTaken(task: Task, l: Tree, r: Tree, i: Index, plan: seq<Action>, m: Action, acts: seq<Action>)
    requires KeepBothSetting(task, l, r, i, plan) && NeverLoses(l, r, i, plan) && m in plan && m.MoveRemote?
    requires forall b :: b in acts ==> b in plan
    ensures m.src !in RemoteMove(Perform(acts, Sides(l, r)).remote, m.src, m.path)
  {
    assert MoveOf(l, r, i, m) && m.src != [] && m.path != [] && m.src != m.path;
    NeverADirRemote(task, l, r, i, plan, m.path, acts);
    NeverADirRemote(task, l, r, i, plan, m.src, acts);
    NoFileAboveLocal(task, l, r, i, plan, m.path, acts);
  }

  /** No remote move takes away what is at the name of a remote copy. */
  lemma RemoteNameNotMoved(task: Task, l: Tree, r: Tree, i: Index, plan: seq<Action>, a: Action, m: Action)
    requires KeepBothSetting(task, l, r, i, plan) && NeverLoses(l, r, i, plan)
    requires a in plan && a.ConflictRemote? && m in plan && m.MoveRemote?
    ensures m.src != a.copy
  {
    CopyIs(task, l, r, i, plan, a);
    var t := RemoteMoveLast(task, l, r, i, plan, m);
    CopyLeft(l, r, i, plan, a, t);
  }

  lemma RemoteNameOwn(task: Task, l: Tree, r: Tree, i: Index, plan: seq<Action>, a: Action)
    requires KeepBothSetting(task, l, r, i, plan) && NeverLoses(l, r, i, plan)
    requires a in plan && a.ConflictRemote? && a.copy in r
    ensures At(r, a.copy) == At(l, a.path) && !Gone(plan, a.copy)
  {
    GoneIsMoved(task, l, r, i, plan, a.copy);
    forall m | m in plan && m.IsMove() ensures m.src != a.copy {
      assert MoveOf(l, r, i, m);
      if m.MoveRemote? { RemoteNameNotMoved(task, l, r, i, plan, a, m); }
    }
    var t := RemoteCopyMade(task, l, r, i, plan, a);
    StaysAt(plan, t.remote, a.copy, At(r, a.copy));
  }

  lemma RemoteNameOther(task: Task, l: Tree, r: Tree, i: Index, plan: seq<Action>, a: Action)
    requires KeepBothSetting(task, l, r, i, plan) && NeverLoses(l, r, i, plan)
    requires a in plan && a.ConflictRemote? && a.copy !in r && a.copy in l && !Gone(plan, a.copy)
    ensures At(l, a.copy) == At(l, a.path)
  {
    var c := a.copy;
    var t0 := RemoteCopyMade(task, l, r, i, plan, a);
    if m :| m in plan && m.MoveRemote? && m.path == c {
      RemoteNameMovedTo(task, l, r, i, plan, a, m);
    } else {
      assert forall m :: m in plan ==> MoveOf(l, r, i, m);
      KeptNotConsumed(task, l, r, i, plan, c);
      NothingTaken(task, l, r, i, plan, c);
      assert !ClashAt(l, r, c);
      PlannedFor(task, l, r, i, plan, c);
      RemoteNameUploaded(task, l, r, i, plan, a);
    }
  }

  lemma RemoteNameMovedTo(task: Task, l: Tree, r: Tree, i: Index, plan: seq<Action>, a: Action, m: Action)
    requires KeepBothSetting(task, l, r, i, plan) && NeverLoses(l, r, i, plan)
    requires a in plan && a.ConflictRemote? && m in plan && m.MoveRemote? && m.path == a.copy
    ensures At(l, a.copy) == At(l, a.path)
  {
    CopyIs(task, l, r, i, plan, a);
    var t := RemoteMoveLast(task, l, r, i, plan, m);
    CopyLeft(l, r, i, plan, a, t);
    BodyLeft(l, r, i, plan, t, m.src);
    assert MoveOf(l, r, i, m);
    MovedTo(l, r, i, plan, m, t.remote, At(r, m.src));
  }

  lemma RemoteNameUploaded(task: Task, l: Tree, r: Tree, i: Index, plan: seq<Action>, a: Action)
    requires KeepBothSetting(task, l, r, i, plan) && NeverLoses(l, r, i, plan)
    requires a in plan && a.ConflictRemote? && UploadFile(a.copy) in plan && a.copy !in r && !Gone(plan, a.copy)
    ensures At(l, a.copy) == At(l, a.path)
  {
    var c := a.copy;
    CopyIs(task, l, r, i, plan, a);
    GoneIsMoved(task, l, r, i, plan, c);
    PlannedBecause(task, l, r, i, plan, UploadFile(c));
    var s, t := LastStep(task, l, r, i, plan, UploadFile(c));
    OthersAre(plan, UploadFile(c));
    NameAccepts(task, l, r, i, plan, a, Others(plan, UploadFile(c)));
    UploadStep(c, s, t);
    CopyLeft(l, r, i, plan, a, t);
    BodyLeft(l, r, i, plan, t, c);
    StaysAt(plan, t.local, c, At(l, c));
  }

  lemma NameAccepts(task: Task, l: Tree, r: Tree, i: Index, plan: seq<Action>, a: Action, acts: seq<Action>)
    requires KeepBothSetting(task, l, r, i, plan) && a in plan && IsConflict(a) && forall b :: b in acts ==> b in plan
    requires !IsDir(At(l, a.copy)) && a.copy !in r
    ensures !PutRefused(Perform(acts, Sides(l, r)).remote, a.copy)
  {
    CopyIs(task, l, r, i, plan, a);
    NeverADirRemote(task, l, r, i, plan, a.copy, acts);
    NoFileAboveCopy(task, l, r, i, plan, a, acts);
  }

  lemma UploadStep(c: Path, s: Sides, t: Sides)
    requires Apply(UploadFile(c), s) == Done(t) && !PutRefused(s.remote, c)
    ensures At(t.remote, c) == At(t.local, c)
  {
  }

  // ---- the exact condition ------------------------------------------------------------------------

  /** Without mirror, no order of a keep_both plan loses anything if and only if every conflict name that is in
      use holds the very content that is copied there, and what holds it is not moved away. */
  lemma KeepBothExactly(task: Task, l: Tree, r: Tree, i: Index, plan: seq<Action>)
    requires KeepBothSetting(task, l, r, i, plan)
    ensures NeverLoses(l, r, i, plan) <==> HarmlessCopies(l, r, plan)
  {
    if HarmlessCopies(l, r, plan) {
      forall acts | Schedule(plan, acts) ensures NothingLost(l, r, i, plan, Run(acts, Sides(l, r))) {
        KeepBothLosesNothing(task, l, r, i, plan, acts);
      }
    }
    if NeverLoses(l, r, i, plan) {
      forall a | a in plan && IsConflict(a)
        ensures if a.ConflictLocal? then HarmlessAt(l, r, plan, a.copy, At(r, a.path))
                else HarmlessAt(r, l, plan, a.copy, At(l, a.path))
      {
        NameHarmless(task, l, r, i, plan, a);
      }
    }
  }

  lemma NameHarmless(task: Task, l: Tree, r: Tree, i: Index, plan: seq<Action>, a: Action)
    requires KeepBothSetting(task, l, r, i, plan) && NeverLoses(l, r, i, plan) && a in plan && IsConflict(a)
    ensures a.ConflictLocal? ==> HarmlessAt(l, r, plan, a.copy, At(r, a.path))
    ensures a.ConflictRemote? ==> HarmlessAt(r, l, plan, a.copy, At(l, a.path))
  {
    if a.ConflictLocal? {
      if a.copy in l { LocalNameOwn(task, l, r, i, plan, a); }
      else if a.copy in r && !Gone(plan, a.copy) { LocalNameOther(task, l, r, i, plan, a); }
    } else {
      if a.copy in r { RemoteNameOwn(task, l, r, i, plan, a); }
      else if a.copy in l && !Gone(plan, a.copy) { RemoteNameOther(task, l, r, i, plan, a); }
    }
  }
}
