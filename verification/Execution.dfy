/** Executing queue items: the skip guard and one attempt, as functions of the whole system state, with
    what re-execution guarantees. */
module Execution {
  import opened Trees
  import opened Actions
  import opened FileIndex
  import opened OperationQueue

  /** The trees and the index of one task, and the queue of all tasks. */
  datatype System = System(sides: Sides, index: Index, rows: Table)

  /** What the outside does to an attempt: nothing, fail it before it has any effect, or report a failure
      after the effect on the trees, because an answer is lost or the result cannot be written back. */
  datatype Fault = Healthy | LostBefore | LostAfter

  /** An item whose earlier attempt failed is skipped if the index already shows its result. */
  predicate Skips(i: Index, attempts: int, a: Action) {
    attempts > 0 && a.path != [] && a.path in i && ShowsResult(i[a.path], a)
  }

  predicate ShowsResult(e: Entry, a: Action) {
    match a
    case CreateDirLocal(_) => e.isDir && e.OnBoth() && !e.tombstone && !e.conflict
    case CreateDirRemote(_) => e.isDir && e.OnBoth() && !e.tombstone && !e.conflict
    case DeleteLocal(_, _) => !e.localExists && e.tombstone
    case DeleteRemote(_, _) => !e.remoteExists && e.tombstone
    case ConflictLocal(_, _) => e.conflict && e.state == Conflicted
    case ConflictRemote(_, _) => e.conflict && e.state == Conflicted
    case RefreshMetadata(_) => true
    case _ => !e.isDir && e.OnBoth() && e.state == Synced && !e.tombstone && !e.conflict
  }

  datatype Attempt = Attempt(system: System, ok: bool)

  /** One attempt at an action item. The item is the caller's copy of the row. */
  function Execute(s: System, item: Item, a: Action, fault: Fault): Attempt {
    if Skips(s.index, item.attempts, a) then Attempt(s, true)
    else
      var s1 := s.(rows := Reschedule(s.rows, item.(status := Executing)));
      if fault.LostBefore? then Attempt(s1, false)
      else
        match Apply(a, s.sides)
        case Failed(t) => Attempt(s1.(sides := t), false)
        case Done(t) =>
          if fault.LostAfter? then Attempt(s1.(sides := t), false)
          else Attempt(s1.(sides := t, index := WriteResult(s.index, a)), true)
  }

  // ---- re-execution -------------------------------------------------------------------------------

  /** The existence, tombstone, conflict and state columns of two indexes agree, and so do their rows. */
  ghost predicate SameFlags(i: Index, j: Index) {
    forall p :: SameRow(i, j, p)
  }

  predicate SameRow(i: Index, j: Index, p: Path) {
    (p in i <==> p in j) && Row(i, p).(version := 0) == Row(j, p).(version := 0)
  }

  lemma ResultRowRespectsFlags(e: Entry, f: Entry, a: Action)
    requires e.(version := 0) == f.(version := 0)
    ensures ResultRow(e, a).(version := 0) == ResultRow(f, a).(version := 0)
  {
  }

  lemma WriteRespectsFlags(i: Index, j: Index, a: Action)
    requires SameFlags(i, j)
    ensures SameFlags(WriteResult(i, a), WriteResult(j, a))
  {
    assert SameRow(i, j, a.path);
    forall p ensures SameRow(WriteResult(i, a), WriteResult(j, a), p) {
      assert SameRow(i, j, p);
      if a.IsMove() {
        MoveRowsAt(i, a.src, a.path, p);
        MoveRowsAt(j, a.src, a.path, p);
      } else {
        ResultRowsAt(i, j, a, p);
      }
    }
  }

  lemma ResultRowsAt(i: Index, j: Index, a: Action, p: Path)
    requires !a.IsMove() && SameRow(i, j, a.path) && SameRow(i, j, p)
    ensures SameRow(WriteResult(i, a), WriteResult(j, a), p)
  {
    ResultRowRespectsFlags(Row(i, a.path), Row(j, a.path), a);
  }

  lemma MoveRowsAt(i: Index, src: Path, dst: Path, p: Path)
    ensures p in WriteMove(i, src, dst) <==> p in i || p == src || p == dst
    ensures Row(WriteMove(i, src, dst), p).(version := 0) ==
            (if p == dst then Entry(false, true, true, 0, Synced, false, false)
             else if p == src then Entry(false, false, false, 0, Missing, false, false)
             else Row(i, p).(version := 0))
  {
  }

  lemma WriteTwice(i: Index, a: Action)
    ensures SameFlags(WriteResult(i, a), WriteResult(WriteResult(i, a), a))
  {
    var j := WriteResult(i, a);
    var k := WriteResult(j, a);
    if a.path != [] && !a.IsMove() {
      ResultRowTwice(Row(i, a.path), a);
    }
    forall p ensures SameRow(j, k, p) {
      if a.path != [] && p != a.path && (!a.IsMove() || p != a.src) {
        assert Row(k, p) == Row(j, p);
      }
    }
  }

  lemma ResultRowTwice(e: Entry, a: Action)
    requires !a.IsMove()
    ensures ResultRow(ResultRow(e, a), a).(version := 0) == ResultRow(e, a).(version := 0)
  {
  }

  /** Applying an action again right after it succeeded changes nothing; only a local move then fails. */
  lemma ApplyTwice(a: Action, s: Sides)
    requires Apply(a, s).Done?
    ensures Apply(a, Apply(a, s).sides).sides == Apply(a, s).sides
    ensures Apply(a, Apply(a, s).sides).Failed? ==> a.MoveLocal? && a.src != a.path
  {
    var s1 := Apply(a, s).sides;
    match a
    case CreateDirLocal(p) => DirsTwice(s.local, p);
    case CreateDirRemote(p) => MkcolTwice(s.remote, p, |p|, |p|);
    case UploadFile(p) => PutTwice(s.remote, p, s.local[p].body);
    case ConflictRemote(p, c) => PutTwice(s.remote, c, s.local[p].body);
    case DownloadFile(p) => WriteFileTwice(s.local, p, s.remote[p].body);
    case ConflictLocal(p, c) => WriteFileTwice(s.local, c, s.remote[p].body);
    case DeleteLocal(p, _) => SameTree(Without(s1.local, p), s1.local);
    case DeleteRemote(p, _) => SameTree(Without(s1.remote, p), s1.remote);
    case MoveLocal(q, p) => MoveFileTwice(s.local, q, p);
    case MoveRemote(q, p) => RemoteMoveTwice(s.remote, q, p);
    case RefreshMetadata(_) =>
  }

  lemma DirsTwice(t: Tree, p: Path)
    requires MkdirAll(t, p).FsOk?
    ensures MkdirAll(MkdirAll(t, p).tree, p) == MkdirAll(t, p)
  {
    var t1 := WithDirs(t, p);
    SameTree(WithDirs(t1, p), t1);
    forall d | d != [] && Covers(d, p) ensures !IsFile(At(t1, d)) {
      assert At(t1, d) == Some(Dir) || At(t1, d) == At(t, d);
    }
  }

  // Directories that are all there stay as they are when a file is put below them.
  lemma DirsThereAlready(t: Tree, p: Path, t2: Tree)
    requires MkdirAll(t, p).FsOk?
    requires forall d :: d != [] && Covers(d, p) ==> At(t2, d) == At(WithDirs(t, p), d)
    ensures MkdirAll(t2, p) == FsOk(t2)
  {
    forall d | d != [] && Covers(d, p) ensures At(t2, d) == Some(Dir) {
      assert At(WithDirs(t, p), d) == Some(Dir) by { assert d in t ==> !t[d].File?; }
    }
    SameTree(WithDirs(t2, p), t2);
  }

  lemma PutTwice(t: Tree, p: Path, body: Bytes)
    ensures Put(Put(t, p, body), p, body) == Put(t, p, body)
  {
    var t1 := Put(t, p, body);
    if !PutRefused(t, p) {
      assert forall d :: Inside(p, d) ==> At(t1, d) == At(t, d);
      assert forall d :: d in t1 && d != [] && Inside(p, d) ==> d in t && t[d] == t1[d];
    }
  }

  lemma WriteFileTwice(t: Tree, p: Path, body: Bytes)
    requires WriteFile(t, p, body).FsOk?
    ensures WriteFile(WriteFile(t, p, body).tree, p, body) == WriteFile(t, p, body)
  {
    var t2 := WriteFile(t, p, body).tree;
    assert forall d :: Covers(d, Parent(p)) ==> d != p;
    DirsThereAlready(t, Parent(p), t2);
  }

  lemma MoveFileTwice(t: Tree, src: Path, p: Path)
    requires MoveFile(t, src, p).FsOk?
    ensures MoveFile(MoveFile(t, src, p).tree, src, p).tree == MoveFile(t, src, p).tree
    ensures src == p ==> MoveFile(MoveFile(t, src, p).tree, src, p).FsOk?
  {
    var t1 := MkdirAll(t, Parent(p)).tree;
    var t2 := MoveFile(t, src, p).tree;
    forall d | d != [] && Covers(d, Parent(p)) ensures At(t2, d) == At(t1, d) {
      assert d in t ==> !t[d].File?;
      assert At(t1, d) == Some(Dir) && d != p && d != src;
    }
    DirsThereAlready(t, Parent(p), t2);
    if src == p {
      assert (t2 - {src})[p := t2[src]] == t2;
    }
  }

  lemma RemoteMoveTwice(t: Tree, src: Path, p: Path)
    ensures RemoteMove(RemoteMove(t, src, p), src, p) == RemoteMove(t, src, p)
  {
    var t1 := RemoteMove(t, src, p);
    if src == p && IsFile(At(t, src)) && !PutRefused(t, p) {
      assert t1 == t;
    }
  }

  /** The state right after an action was executed and written back, or any state that re-executions
      of it reach: neither the trees nor the flags move any more. */
  ghost predicate Absorbed(a: Action, s: System) {
    && Apply(a, s.sides).sides == s.sides
    && (Apply(a, s.sides).Failed? ==> a.MoveLocal?)
    && SameFlags(s.index, WriteResult(s.index, a))
    && (a.IsMove() ==> a.path != [] && ShowsResult(Row(s.index, a.path), a) && a.path in s.index)
  }

  lemma ExecutedIsAbsorbed(s: System, item: Item, a: Action)
    requires Execute(s, item, a, Healthy).ok && !Skips(s.index, item.attempts, a) && a.path != []
    ensures Absorbed(a, Execute(s, item, a, Healthy).system)
  {
    ApplyTwice(a, s.sides);
    WriteTwice(s.index, a);
  }

  /** Re-executing changes neither tree nor any flag, whatever the copy's attempt count and the faults. */
  lemma ReexecutionHarmless(s: System, item: Item, a: Action, fault: Fault)
    requires Absorbed(a, s)
    ensures var r := Execute(s, item, a, fault).system;
            r.sides == s.sides && SameFlags(s.index, r.index) && Absorbed(a, r)
  {
    var r := Execute(s, item, a, fault).system;
    if r.index != s.index {
      WriteRespectsFlags(s.index, r.index, a);
      forall p ensures SameRow(r.index, WriteResult(r.index, a), p) {
        assert SameRow(s.index, r.index, p) && SameRow(WriteResult(s.index, a), WriteResult(r.index, a), p);
      }
      assert SameRow(s.index, r.index, a.path);
    }
  }

  /** Any number of attempts at one item, each with its own copy and fault. */
  function Attempts(s: System, a: Action, tries: seq<(Item, Fault)>): System {
    if tries == [] then s
    else var n := |tries| - 1; Execute(Attempts(s, a, tries[..n]), tries[n].0, a, tries[n].1).system
  }

  /** At-least-once execution acts like exactly-once. */
  lemma {:induction false} AttemptsHarmless(s: System, a: Action, tries: seq<(Item, Fault)>)
    requires Absorbed(a, s)
    ensures var r := Attempts(s, a, tries); r.sides == s.sides && SameFlags(s.index, r.index) && Absorbed(a, r)
  {
    if tries != [] {
      var n := |tries| - 1;
      var s1 := Attempts(s, a, tries[..n]);
      AttemptsHarmless(s, a, tries[..n]);
      ReexecutionHarmless(s1, tries[n].0, a, tries[n].1);
      var r := Attempts(s, a, tries);
      forall p ensures SameRow(s.index, r.index, p) {
        assert SameRow(s.index, s1.index, p) && SameRow(s1.index, r.index, p);
      }
    } else {
      assert forall p :: SameRow(s.index, s.index, p);
    }
  }

  /** The guard recognises every written-back result, so an item retried after that is skipped. */
  lemma GuardRecognisesResult(i: Index, a: Action, attempts: int)
    requires a.path != []
    ensures Skips(WriteResult(i, a), attempts, a) <==> attempts > 0
  {
  }

  /** When the guard skips, by what the writer would do: where writing an upload, a download, a new directory
      or a move back would change no flag of its row; for a delete no flag but the type; for either half of a
      conflict where the row is marked as a conflict; and a refresh, which never changes more than the type,
      wherever there is a row. */
  lemma SkipsExactly(i: Index, attempts: int, a: Action)
    requires IndexOk(i)
    ensures var asked := attempts > 0 && a.path != [] && a.path in i;
            var e, f := Row(i, a.path), Row(WriteResult(i, a), a.path);
            && (!a.IsDelete() && !a.ConflictLocal? && !a.ConflictRemote? && !a.RefreshMetadata? ==>
                  (Skips(i, attempts, a) <==> asked && SameRow(i, WriteResult(i, a), a.path)))
            && (a.IsDelete() ==>
                  (Skips(i, attempts, a) <==> asked && e.(version := 0) == f.(version := 0, isDir := e.isDir)))
            && (a.ConflictLocal? || a.ConflictRemote? ==> (Skips(i, attempts, a) <==> asked && e.conflict))
            && (a.RefreshMetadata? ==> (Skips(i, attempts, a) <==> asked))
            && (a.RefreshMetadata? && asked ==> e.(version := 0) == f.(version := 0, isDir := e.isDir))
  {
    assert a.path in i ==> RowOk(i[a.path]);
  }

  /** What that means right after a baseline run, on the trees it ended with: a retry is skipped as done where
      both sides have a file, or an entry that is a directory on one of them; a delete where the path is gone
      from its side and was known; and never a conflict. */
  lemma SkipsAfterBaseline(i: Index, l: Tree, r: Tree, attempts: int, p: Path, q: Path)
    requires p != [] && attempts > 0
    ensures var j, files := WriteSnapshot(i, l, r), IsFile(At(l, p)) && IsFile(At(r, p));
            var wasThere := Row(i, p).localExists || Row(i, p).remoteExists;
            && (Skips(j, attempts, UploadFile(p)) <==> files)
            && (Skips(j, attempts, DownloadFile(p)) <==> files)
            && (Skips(j, attempts, MoveLocal(q, p)) <==> files)
            && (Skips(j, attempts, MoveRemote(q, p)) <==> files)
            && (Skips(j, attempts, CreateDirLocal(p)) <==> p in l && p in r && !files)
            && (Skips(j, attempts, CreateDirRemote(p)) <==> p in l && p in r && !files)
            && (forall d :: Skips(j, attempts, DeleteLocal(p, d)) <==> p !in l && wasThere)
            && (forall d :: Skips(j, attempts, DeleteRemote(p, d)) <==> p !in r && wasThere)
            && !Skips(j, attempts, ConflictLocal(p, q)) && !Skips(j, attempts, ConflictRemote(p, q))
  {
    SnapshotExact(i, l, r, p);
  }

  /** The guard also takes the first half of a keep_both pair for the second: once the remote version
      has been downloaded, a failed upload of the local version is skipped on its retry. */
  lemma SecondHalfSkipped(s: System, item: Item, i: Index, p: Path, c: Path, c': Path, fault: Fault)
    requires p != [] && item.attempts == 0 && s.index == WriteResult(i, ConflictLocal(p, c))
    ensures var a := ConflictRemote(p, c');
            var first := Execute(s, item, a, LostBefore);
            var second := Execute(first.system, item.(attempts := 1), a, fault);
            !first.ok && second.ok && second.system.sides == s.sides
  {
  }

  /** A repeated move of either kind is reported as succeeded at the latest on its second further
      attempt: with a positive attempt count the guard skips it, whatever fault would await it. */
  lemma RepeatedMoveSucceeds(s: System, item: Item, a: Action, first: Fault, second: Fault)
    requires Absorbed(a, s) && a.IsMove() && item.attempts >= 0
    ensures item.attempts > 0 ==> Execute(s, item, a, first).ok
    ensures !Execute(s, item, a, first).ok ==>
              Execute(Execute(s, item, a, first).system, item.(attempts := item.attempts + 1), a, second).ok
  {
    ReexecutionHarmless(s, item, a, first);
  }

  /** The gap in at-least-once execution: a local move that took effect but was reported as failed, so
      that nothing was written back, fails on every further attempt until its row shows the result. */
  lemma LostLocalMoveIsStuck(s: System, first: Item, src: Path, p: Path, item: Item, fault: Fault)
    requires Apply(MoveLocal(src, p), s.sides).Done? && src != p
    requires !ShowsResult(Row(s.index, p), MoveLocal(src, p))
    ensures var a := MoveLocal(src, p);
            var s1 := Execute(s, first, a, LostAfter);
            && !s1.ok && s1.system.index == s.index
            && !Execute(s1.system, item, a, fault).ok
            && Execute(s1.system, item, a, fault).system.sides == s1.system.sides
  {
    ApplyTwice(MoveLocal(src, p), s.sides);
    SourceGone(s.sides.local, src, p);
  }

  lemma SourceGone(t: Tree, src: Path, p: Path)
    requires MoveFile(t, src, p).FsOk? && src != p
    ensures MoveFile(MoveFile(t, src, p).tree, src, p).FsErr?
  {
    MkdirAllAt(MoveFile(t, src, p).tree, Parent(p), src);
  }
}
