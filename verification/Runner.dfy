/** The baseline runner: both trees and the file index as state, the executor and the two index
    writers as methods, and the three baseline runs. */
module Runner {
  import opened Trees
  import opened Actions
  import opened FileIndex
  import opened Planner
  import opened Detection
  import opened Readability
  import opened PlanLoops
  import opened Convergence
  import opened Conditions
  import opened OneWay
  import opened Stability
  import opened ThreeWay

  class BaselineRunner {
    var local: Tree
    var remote: Tree
    var index: Index

    constructor (l: Tree, r: Tree, i: Index)
      ensures local == l && remote == r && index == i
    {
      local, remote, index := l, r, i;
    }

    function Both(): Sides
      reads this
    {
      Sides(local, remote)
    }

    // ---- executing ------------------------------------------------------------------------------

    method ExecuteOne(a: Action) returns (ok: bool)
      modifies this`local, this`remote
      ensures Apply(a, old(Both())) == if ok then Done(Both()) else Failed(Both())
    {
      match a {
        case CreateDirLocal(p) => ok := SetLocal(MkdirAll(local, p));
        case CreateDirRemote(p) => remote, ok := Mkcol(remote, p, |p|), true;
        case UploadFile(p) => ok := UploadFrom(p, p);
        case ConflictRemote(p, c) => ok := UploadFrom(p, c);
        case DownloadFile(p) => ok := DownloadTo(p, p);
        case ConflictLocal(p, c) => ok := DownloadTo(p, c);
        case DeleteLocal(p, _) => local, ok := Without(local, p), true;
        case DeleteRemote(p, _) => remote, ok := Without(remote, p), true;
        case MoveLocal(q, p) => ok := SetLocal(MoveFile(local, q, p));
        case MoveRemote(q, p) => remote, ok := RemoteMove(remote, q, p), true;
        case RefreshMetadata(_) => ok := true;
      }
    }

    method SetLocal(r: FsResult) returns (ok: bool)
      modifies this`local
      ensures local == r.tree && ok == r.FsOk?
    {
      local, ok := r.tree, r.FsOk?;
    }

    method UploadFrom(from: Path, to: Path) returns (ok: bool)
      modifies this`remote
      ensures Upload(old(Both()), from, to) == if ok then Done(Both()) else Failed(Both())
    {
      ok := IsFile(At(local, from));
      if ok {
        remote := Put(remote, to, local[from].body);
      }
    }

    method DownloadTo(from: Path, to: Path) returns (ok: bool)
      modifies this`local
      ensures Download(old(Both()), from, to) == if ok then Done(Both()) else Failed(Both())
    {
      ok := IsFile(At(remote, from));
      if ok {
        ok := SetLocal(WriteFile(local, to, remote[from].body));
      }
    }

    /** Executes the actions in order up to the first failure. */
    method ExecutePlan(acts: seq<Action>) returns (ok: bool)
      modifies this`local, this`remote
      ensures Run(acts, old(Both())) == if ok then Done(Both()) else Failed(Both())
    {
      ok := true;
      var k := 0;
      while k < |acts|
        invariant 0 <= k <= |acts|
        invariant Run(acts[..k], old(Both())) == Done(Both())
      {
        assert acts[..k + 1] == acts[..k] + [acts[k]];
        RunSnoc(acts[..k], acts[k], old(Both()));
        ok := ExecuteOne(acts[k]);
        if !ok {
          RunFailedStays(acts, k + 1, old(Both()));
          return;
        }
        k := k + 1;
      }
      assert acts[..k] == acts;
    }

    // ---- writing the index ----------------------------------------------------------------------

    method WriteActionResult(a: Action)
      modifies this`index
      ensures index == WriteResult(old(index), a)
    {
      if a.path == [] {
        return;
      }
      if a.IsMove() {
        WriteMoveActionResults(a.src, a.path);
        return;
      }
      var previous := Row(index, a.path);
      var localExists, remoteExists := previous.localExists, previous.remoteExists;
      var conflict, tombstone := previous.conflict, previous.tombstone;
      match a {
        case DeleteLocal(_, _) => localExists, tombstone := false, true;
        case DeleteRemote(_, _) => remoteExists, tombstone := false, true;
        case RefreshMetadata(_) =>
        case ConflictLocal(_, _) => localExists, remoteExists, conflict, tombstone := true, true, true, false;
        case ConflictRemote(_, _) => localExists, remoteExists, conflict, tombstone := true, true, true, false;
        case _ => localExists, remoteExists, conflict, tombstone := true, true, false, false;
      }
      index := index[a.path := Entry(EntryIsDir(a), localExists, remoteExists, Max(previous.version + 1, 1),
                                     StateFor(localExists, remoteExists, tombstone, conflict), conflict, tombstone)];
    }

    method WriteMoveActionResults(src: Path, dst: Path)
      modifies this`index
      ensures index == WriteMove(old(index), src, dst)
      ensures MoveCandidate(Row(index, dst)) && (src != dst ==> Row(index, src).state == Missing)
      ensures forall p :: p !in {src, dst} ==> Row(index, p) == Row(old(index), p)
    {
      var source, dest := Row(index, src), Row(index, dst);
      index := index[src := Entry(false, false, false, Max(source.version + 1, 1), Missing, false, false)];
      var version := Max(Max(source.version, dest.version) + 1, 1);
      index := index[dst := Entry(false, true, true, version, Synced, false, false)];
    }

    /** One upsert for every path that either snapshot or the index knows. */
    method PersistFileIndex(l: Tree, r: Tree)
      modifies this`index
      ensures index == WriteSnapshot(old(index), l, r)
    {
      var previous := index;
      var paths := l.Keys + r.Keys + previous.Keys;
      var todo := paths;
      while todo != {}
        invariant todo <= paths
        invariant index.Keys == previous.Keys + (paths - todo)
        invariant forall p :: p in paths - todo ==> index[p] == SnapshotRow(Row(previous, p), At(l, p), At(r, p))
      {
        var p :| p in todo;
        todo := todo - {p};
        var hasLocal, hasRemote := p in l, p in r;
        var before := Row(previous, p);
        var isDir := (hasLocal && l[p].Dir?) || (hasRemote && r[p].Dir?);
        var tombstone := before.tombstone;
        if !hasLocal || !hasRemote {
          tombstone := before.localExists || before.remoteExists;
        }
        if hasLocal && hasRemote {
          tombstone := false;
        }
        var row := Entry(isDir, hasLocal, hasRemote, Max(before.version + 1, 1),
                         StateFor(hasLocal, hasRemote, tombstone, false), false, tombstone);
        assert row == SnapshotRow(before, At(l, p), At(r, p));
        index := index[p := row];
      }
      assert index.Keys == paths;
    }

    /** One queued action: execute it and, if that succeeds, write its result back. */
    method ExecuteAction(a: Action) returns (ok: bool)
      modifies this
      ensures Apply(a, old(Both())) == if ok then Done(Both()) else Failed(Both())
      ensures index == if ok then WriteResult(old(index), a) else old(index)
    {
      ok := ExecuteOne(a);
      if ok {
        WriteActionResult(a);
      }
    }

    // ---- the baseline runs ----------------------------------------------------------------------

    /** A failed plan changes nothing; whether planning fails is an outcome of move detection, which some
        inputs decide either way and the others leave to the order of visits. A planned run under a prefer
        policy makes the trees equal exactly when no path clashes, everything below a remote directory that
        is to go is to go, and no local move ends there. With sound rows, none of them marked as a conflict,
        the run succeeds with equal trees exactly if planning does not fail and the first two conditions
        hold. Then it has merged the two trees over what the index knew. */
    method BidirectionalOnce(task: Task) returns (planned: bool, ok: bool, plan: seq<Action>)
      modifies this
      ensures exists moves :: Detected(old(local), old(remote), old(index), planned, moves)
      ensures NeverReadable(old(local), old(remote), old(index)) ==> !planned
      ensures AlwaysReadable(old(local), old(remote), old(index)) ==> planned
      ensures !planned ==> !ok && Both() == old(Both()) && index == old(index)
      ensures planned ==>
                && BidirectionalPlan(task, old(local), old(remote), old(index), plan)
                && Readable(old(local), old(remote), old(index), plan)
                && Run(plan, old(Both())) == (if ok then Done(Both()) else Failed(Both()))
      ensures index == if ok then WriteSnapshot(old(index), local, remote) else old(index)
      ensures planned && PrefixClosed(old(local)) && PrefixClosed(old(remote)) && task.policy != KeepBoth ==>
                ((ok && local == remote) <==>
                 (&& NoClash(old(local), old(remote)) && DeletesWholeDirs(task, old(local), old(remote), old(index))
                  && NoMoveIntoDeletes(task, old(local), old(remote), old(index), plan)))
      ensures PrefixClosed(old(local)) && PrefixClosed(old(remote)) && task.policy != KeepBoth
              && IndexOk(old(index)) && NoConflictRows(old(index)) ==>
                ((ok && local == remote) <==>
                 (&& planned && NoClash(old(local), old(remote))
                  && DeletesWholeDirs(task, old(local), old(remote), old(index))))
      ensures ok && local == remote && PrefixClosed(old(local)) && PrefixClosed(old(remote))
              && task.direction == Bidirectional && task.policy != KeepBoth ==>
                forall p :: MergesAt(task.mirror, task.policy == PreferLocal, old(local), old(remote), plan,
                                     Known(old(index), p), local, p)
      ensures ok && IndexOk(old(index)) ==> IndexOk(index) && NoConflictRows(index)
    {
      ok, plan := PlanBidirectional(task, local, remote, index);
      planned := ok;
      if planned {
        ghost var l, r := local, remote;
        ok := ExecutePlan(plan);
        if PrefixClosed(l) && PrefixClosed(r) && task.policy != KeepBoth {
          BaselineConvergesExactly(task, l, r, index, plan);
          if task.direction == Bidirectional {
            forall p
              ensures MergesAt(task.mirror, task.policy == PreferLocal, l, r, plan, Known(index, p),
                               Target(task, l, r, plan), p)
            {
              TargetIsMerge(task, l, r, index, plan, p);
            }
          }
        }
        if ok {
          if IndexOk(index) {
            SnapshotHasNoConflicts(index, local, remote);
          }
          PersistFileIndex(local, remote);
        }
      }
    }

    /** Without mirror the remote is not even listed. */
    method UploadOnce(task: Task) returns (ok: bool)
      modifies this
      ensures PrefixClosed(old(local)) && PrefixClosed(old(remote)) ==>
                ((ok && local == old(local) && remote == UploadTarget(task, old(local), old(remote))) <==>
                 NoClash(old(local), old(remote)))
      ensures index == if ok then WriteSnapshot(old(index), old(local), remote) else old(index)
    {
      var localEntries := local;
      var remoteEntries := if task.mirror then remote else map[];
      var acts := PlanUpload(task, localEntries, remoteEntries);
      assert UploadPlan(task, local, remote, acts) by {
        forall p
          ensures UploadDecision(task, local, remote, p) == UploadDecision(task, localEntries, remoteEntries, p) {}
      }
      if PrefixClosed(local) && PrefixClosed(remote) {
        UploadExactly(task, local, remote, acts);
      }
      ok := ExecutePlan(acts);
      if ok {
        PersistFileIndex(localEntries, remote);
      }
    }

    method DownloadOnce(task: Task) returns (ok: bool)
      modifies this
      ensures PrefixClosed(old(local)) && PrefixClosed(old(remote)) ==>
                ((ok && remote == old(remote) && local == DownloadTarget(task, old(local), old(remote))) <==>
                 NoClash(old(local), old(remote)))
      ensures index == if ok then WriteSnapshot(old(index), local, old(remote)) else old(index)
    {
      var remoteEntries := remote;
      var acts := PlanDownload(task, local, remoteEntries);
      if PrefixClosed(local) && PrefixClosed(remote) {
        DownloadExactly(task, local, remote, acts);
      }
      ok := ExecutePlan(acts);
      if ok {
        PersistFileIndex(local, remoteEntries);
      }
    }
  }
}
