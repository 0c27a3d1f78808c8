/** One-way runs. Any sequence of the planned actions that leaves none out, in any order and with
    any repetitions, leaves the source alone and makes the target equal to the source (mirror) or to
    the source laid over the target, if and only if no path is a file on one side and a directory on
    the other. */
module OneWay {
  import opened Trees
  import opened Actions
  import opened Settling
  import opened Planner
  import opened Convergence

  function UploadTarget(task: Task, l: Tree, r: Tree): Tree {
    if task.mirror then l else r + l
  }

  function DownloadTarget(task: Task, l: Tree, r: Tree): Tree {
    if task.mirror then r else l + r
  }

  /** What an upload plans, and nothing else: every local directory and file, and with mirror the delete of
      every entry that only the remote has. */
  lemma UploadPlansExactly(task: Task, l: Tree, r: Tree, acts: seq<Action>, a: Action)
    requires UploadPlan(task, l, r, acts)
    ensures a in acts <==>
            || (a.CreateDirRemote? && IsDir(At(l, a.path)))
            || (a.UploadFile? && IsFile(At(l, a.path)))
            || (a.DeleteRemote? && task.mirror && a.path in r && a.path !in l && (a.isDir <==> IsDir(At(r, a.path))))
  {
    assert UploadDecision(task, l, r, a.path).Some? ==> UploadDecision(task, l, r, a.path).value in acts;
  }

  lemma DownloadPlansExactly(task: Task, l: Tree, r: Tree, acts: seq<Action>, a: Action)
    requires DownloadPlan(task, l, r, acts)
    ensures a in acts <==>
            || (a.CreateDirLocal? && IsDir(At(r, a.path)))
            || (a.DownloadFile? && IsFile(At(r, a.path)))
            || (a.DeleteLocal? && task.mirror && a.path in l && a.path !in r && (a.isDir <==> IsDir(At(l, a.path))))
  {
    assert DownloadDecision(task, l, r, a.path).Some? ==> DownloadDecision(task, l, r, a.path).value in acts;
  }

  /** Where source and old target agree in kind, directories above a source path stay directories. */
  lemma SourceParents(source: Tree, dest: Tree, f: Tree, p: Path, d: Path)
    requires PrefixClosed(source) && NoClash(source, dest) && p in source && d != [] && Inside(p, d)
    requires f == source || f == dest + source
    ensures DirOk(dest, f, d)
  {
    assert !ClashAt(source, dest, d);
    assert IsDir(At(source, d));
  }

  lemma UploadSound(task: Task, l: Tree, r: Tree, acts: seq<Action>, a: Action)
    requires PrefixClosed(l) && NoClash(l, r) && UploadPlan(task, l, r, acts) && a in acts
    requires [] !in r
    ensures Sound(World(l, r, l, UploadTarget(task, l, r)), a)
  {
    var f := UploadTarget(task, l, r);
    var p := a.path;
    assert UploadDecision(task, l, r, p) == Some(a);
    assert !ClashAt(l, r, p);
    if p in l {
      forall d | d != [] && Inside(p, d) ensures DirOk(r, f, d) { SourceParents(l, r, f, p, d); }
      assert forall d :: Covers(d, p) ==> d == p || Inside(p, d);
    } else {
      forall q | Covers(p, q) ensures q !in l {
        assert q != p ==> Inside(q, p);
      }
    }
  }

  lemma DownloadSound(task: Task, l: Tree, r: Tree, acts: seq<Action>, a: Action)
    requires PrefixClosed(r) && NoClash(l, r) && DownloadPlan(task, l, r, acts) && a in acts
    requires [] !in l
    ensures Sound(World(l, r, DownloadTarget(task, l, r), r), a)
  {
    var f := DownloadTarget(task, l, r);
    var p := a.path;
    assert DownloadDecision(task, l, r, p) == Some(a);
    assert !ClashAt(l, r, p);
    if p in r {
      assert NoClash(r, l) by {
        forall q ensures !ClashAt(r, l, q) { assert !ClashAt(l, r, q); }
      }
      forall d | d != [] && Inside(p, d) ensures DirOk(l, f, d) { SourceParents(r, l, f, p, d); }
      assert forall d :: Covers(d, p) ==> d == p || Inside(p, d);
    } else {
      forall q | Covers(p, q) ensures q !in r {
        assert q != p ==> Inside(q, p);
      }
    }
  }

  lemma UploadExactly(task: Task, l: Tree, r: Tree, acts: seq<Action>)
    requires PrefixClosed(l) && PrefixClosed(r) && UploadPlan(task, l, r, acts)
    ensures Run(acts, Sides(l, r)) == Done(Sides(l, UploadTarget(task, l, r))) <==> NoClash(l, r)
  {
    if NoClash(l, r) {
      var w := World(l, r, l, UploadTarget(task, l, r));
      forall k | 0 <= k < |acts| ensures Sound(w, acts[k]) && !acts[k].IsMove() {
        assert UploadDecision(task, l, r, acts[k].path) == Some(acts[k]);
        UploadSound(task, l, r, acts, acts[k]);
      }
      forall p | At(r, p) != At(w.fr, p) ensures RemoteReached(acts, p) {
        var a := UploadDecision(task, l, r, p).value;
        assert a in acts && RemoteTarget(a, p);
      }
      RunSettles(w, acts);
    } else {
      var p :| ClashAt(l, r, p);
      UploadClashPersists(task, l, r, acts, p);
      RunIsPerform(acts, Sides(l, r));
    }
  }

  lemma UploadClashPersists(task: Task, l: Tree, r: Tree, acts: seq<Action>, p: Path)
    requires PrefixClosed(l) && PrefixClosed(r) && UploadPlan(task, l, r, acts) && ClashAt(l, r, p)
    ensures var t := Perform(acts, Sides(l, r)).remote; p in t && t[p].Dir? == r[p].Dir?
    ensures p in UploadTarget(task, l, r) && UploadTarget(task, l, r)[p].Dir? != r[p].Dir?
  {
    forall a | a in acts ensures !ClearsRemote(a, p) && (WritesRemote(a, p) ==> IsDir(At(r, p))) {
      assert UploadDecision(task, l, r, a.path) == Some(a);
      assert Covers(a.path, p) && a.path != p ==> Inside(p, a.path);
    }
    RemoteKept(acts, Sides(l, r), p);
  }

  lemma DownloadExactly(task: Task, l: Tree, r: Tree, acts: seq<Action>)
    requires PrefixClosed(l) && PrefixClosed(r) && DownloadPlan(task, l, r, acts)
    ensures Run(acts, Sides(l, r)) == Done(Sides(DownloadTarget(task, l, r), r)) <==> NoClash(l, r)
  {
    if NoClash(l, r) {
      var w := World(l, r, DownloadTarget(task, l, r), r);
      forall k | 0 <= k < |acts| ensures Sound(w, acts[k]) && !acts[k].IsMove() {
        assert DownloadDecision(task, l, r, acts[k].path) == Some(acts[k]);
        DownloadSound(task, l, r, acts, acts[k]);
      }
      forall p | At(l, p) != At(w.fl, p) ensures LocalReached(acts, p) {
        var a := DownloadDecision(task, l, r, p).value;
        assert a in acts && LocalTarget(a, p);
      }
      RunSettles(w, acts);
    } else {
      var p :| ClashAt(l, r, p);
      DownloadClashPersists(task, l, r, acts, p);
      RunIsPerform(acts, Sides(l, r));
    }
  }

  lemma DownloadClashPersists(task: Task, l: Tree, r: Tree, acts: seq<Action>, p: Path)
    requires PrefixClosed(l) && PrefixClosed(r) && DownloadPlan(task, l, r, acts) && ClashAt(l, r, p)
    ensures var t := Perform(acts, Sides(l, r)).local; p in t && t[p].Dir? == l[p].Dir?
    ensures p in DownloadTarget(task, l, r) && DownloadTarget(task, l, r)[p].Dir? != l[p].Dir?
  {
    forall a | a in acts ensures !ClearsLocal(a, p) && (WritesLocal(a, p) ==> IsDir(At(l, p))) {
      assert DownloadDecision(task, l, r, a.path) == Some(a);
      assert Covers(a.path, p) && a.path != p ==> Inside(p, a.path);
    }
    LocalKept(acts, Sides(l, r), p);
  }
}
