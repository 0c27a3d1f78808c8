/** The persisted file index: one row per relative path, written by two independent writers, and
    read by the next plan to decide deletes, moves and conflict names. */
module FileIndex {
  import opened Trees
  import opened Actions
  import opened ConflictNames

  datatype SyncState = Unset | Synced | Conflicted | Tombstoned | Pending | Missing

  datatype Entry = Entry(
    isDir: bool, localExists: bool, remoteExists: bool, version: int,
    state: SyncState, conflict: bool, tombstone: bool)
  {
    predicate OnBoth() { localExists && remoteExists }
  }

  type Index = map<Path, Entry>

  /** What reading a missing row yields. */
  const NO_ENTRY := Entry(false, false, false, 0, Unset, false, false)

  function Row(i: Index, p: Path): Entry {
    if p in i then i[p] else NO_ENTRY
  }

  function Max(a: int, b: int): int {
    if a > b then a else b
  }

  function StateFor(localExists: bool, remoteExists: bool, tombstone: bool, conflict: bool): SyncState {
    if conflict then Conflicted
    else if localExists && remoteExists then Synced
    else if tombstone then Tombstoned
    else if localExists || remoteExists then Pending
    else Missing
  }

  // ---- the writer behind every executed queue item ------------------------------------------------

  function EntryIsDir(a: Action): bool {
    a.CreateDirLocal? || a.CreateDirRemote? || (a.IsDelete() && a.isDir)
  }

  /** The row an action other than a move leaves behind. */
  function ResultRow(prev: Entry, a: Action): Entry {
    var e := prev.(isDir := EntryIsDir(a), version := Max(prev.version + 1, 1));
    var e1 := match a
      case CreateDirLocal(_) => e.(localExists := true, remoteExists := true, conflict := false, tombstone := false)
      case CreateDirRemote(_) => e.(localExists := true, remoteExists := true, conflict := false, tombstone := false)
      case UploadFile(_) => e.(localExists := true, remoteExists := true, conflict := false, tombstone := false)
      case DownloadFile(_) => e.(localExists := true, remoteExists := true, conflict := false, tombstone := false)
      case ConflictLocal(_, _) => e.(localExists := true, remoteExists := true, conflict := true, tombstone := false)
      case ConflictRemote(_, _) => e.(localExists := true, remoteExists := true, conflict := true, tombstone := false)
      case DeleteLocal(_, _) => e.(localExists := false, tombstone := true)
      case DeleteRemote(_, _) => e.(remoteExists := false, tombstone := true)
      case _ => e;
    e1.(state := StateFor(e1.localExists, e1.remoteExists, e1.tombstone, e1.conflict))
  }

  function WriteMove(i: Index, src: Path, p: Path): Index {
    var source, dest := Row(i, src), Row(i, p);
    i[src := Entry(false, false, false, Max(source.version + 1, 1), Missing, false, false)]
     [p := Entry(false, true, true, Max(Max(source.version, dest.version) + 1, 1), Synced, false, false)]
  }

  function WriteResult(i: Index, a: Action): Index {
    if a.path == [] then i
    else if a.IsMove() then WriteMove(i, a.src, a.path)
    else i[a.path := ResultRow(Row(i, a.path), a)]
  }

  // ---- the writer at the end of a baseline run ----------------------------------------------------

  function SnapshotRow(prev: Entry, local: Option<Node>, remote: Option<Node>): Entry {
    var both := local.Some? && remote.Some?;
    var tombstone := !both && (prev.localExists || prev.remoteExists);
    Entry(IsDir(local) || IsDir(remote), local.Some?, remote.Some?, Max(prev.version + 1, 1),
          StateFor(local.Some?, remote.Some?, tombstone, false), false, tombstone)
  }

  function WriteSnapshot(i: Index, local: Tree, remote: Tree): Index {
    map p | p in local.Keys + remote.Keys + i.Keys :: SnapshotRow(Row(i, p), At(local, p), At(remote, p))
  }

  // ---- what the next plan reads -------------------------------------------------------------------

  predicate MirrorDeletes(e: Entry) {
    e.localExists && e.remoteExists && !e.tombstone
  }

  predicate MoveCandidate(e: Entry) {
    e.localExists && e.remoteExists && !e.tombstone && !e.conflict && e.state == Synced
  }

  function NextConflictVersion(e: Entry): int {
    if e.version <= 0 then 1 else e.version + 1
  }

  // ---- whole histories of writes ------------------------------------------------------------------

  datatype Write = Result(action: Action) | Snapshot(local: Tree, remote: Tree)

  function Apply1(i: Index, w: Write): Index {
    match w
    case Result(a) => WriteResult(i, a)
    case Snapshot(l, r) => WriteSnapshot(i, l, r)
  }

  function Replay(i: Index, h: seq<Write>): Index {
    if h == [] then i else Apply1(Replay(i, h[..|h| - 1]), h[|h| - 1])
  }

  predicate Touches(i: Index, w: Write, p: Path) {
    match w
    case Result(a) => a.path != [] && (p == a.path || (a.IsMove() && p == a.src))
    case Snapshot(l, r) => p in l || p in r || p in i
  }

  predicate RowOk(e: Entry) {
    && e.version >= 1
    && e.state == StateFor(e.localExists, e.remoteExists, e.tombstone, e.conflict)
    && (e.tombstone ==> !e.OnBoth())
  }

  ghost predicate IndexOk(i: Index) {
    forall p :: p in i ==> RowOk(i[p])
  }

  /** Every write raises the version of exactly the rows it touches, and they are rows afterwards. */
  lemma WriteEffect(i: Index, w: Write, p: Path)
    ensures Touches(i, w, p) ==> p in Apply1(i, w) && Row(Apply1(i, w), p).version > Row(i, p).version
    ensures !Touches(i, w, p) ==> (p in Apply1(i, w) <==> p in i) && Row(Apply1(i, w), p) == Row(i, p)
  {
  }

  lemma ResultRowOk(prev: Entry, a: Action)
    requires prev == NO_ENTRY || RowOk(prev)
    ensures !a.IsMove() ==> RowOk(ResultRow(prev, a))
  {
  }

  lemma WriteKeepsOk(i: Index, w: Write)
    requires IndexOk(i)
    ensures IndexOk(Apply1(i, w))
  {
    if w.Result? {
      ResultRowOk(Row(i, w.action.path), w.action);
    }
    forall p | p in Apply1(i, w) ensures RowOk(Apply1(i, w)[p]) {
      assert p in i ==> RowOk(i[p]);
    }
  }

  /** Whatever the two writers did, in whatever order, from an empty index on. */
  lemma {:induction false} ReplayKeepsOk(i: Index, h: seq<Write>)
    requires IndexOk(i)
    ensures IndexOk(Replay(i, h))
  {
    if h != [] {
      ReplayKeepsOk(i, h[..|h| - 1]);
      WriteKeepsOk(Replay(i, h[..|h| - 1]), h[|h| - 1]);
    }
  }

  /** After a baseline run the rows say exactly what the two final snapshots hold: presence, type, and no
      conflict. The next plan may delete or move away just what both sides have now, and a tombstone marks
      what was known to exist and is now missing somewhere. */
  lemma SnapshotExact(i: Index, local: Tree, remote: Tree, p: Path)
    ensures var e := Row(WriteSnapshot(i, local, remote), p);
            && (e.localExists <==> p in local) && (e.remoteExists <==> p in remote) && !e.conflict
            && (e.isDir <==> IsDir(At(local, p)) || IsDir(At(remote, p)))
            && (p in local || p in remote ==> p in WriteSnapshot(i, local, remote))
            && (MirrorDeletes(e) <==> p in local && p in remote) && (MoveCandidate(e) <==> p in local && p in remote)
            && (e.tombstone <==> (p !in local || p !in remote) && (Row(i, p).localExists || Row(i, p).remoteExists))
  {
  }

  /** So its state column tells apart what both sides have, what was lost somewhere, what one side has got
      since, and what was never there. */
  lemma SnapshotState(i: Index, local: Tree, remote: Tree, p: Path)
    requires p in WriteSnapshot(i, local, remote)
    ensures var e, wasThere := WriteSnapshot(i, local, remote)[p], Row(i, p).localExists || Row(i, p).remoteExists;
            && (e.state == Synced <==> p in local && p in remote)
            && (e.state == Tombstoned <==> wasThere && (p !in local || p !in remote))
            && (e.state == Pending <==> !wasThere && (p in local <==> p !in remote))
            && (e.state == Missing <==> !wasThere && p !in local && p !in remote)
  {
  }

  lemma ReplaySnoc(i: Index, h: seq<Write>, w: Write)
    ensures Replay(i, h + [w]) == Apply1(Replay(i, h), w)
  {
    assert (h + [w])[..|h|] == h;
  }

  lemma {:induction false} ReplaySplit(i: Index, g: seq<Write>, h: seq<Write>)
    ensures Replay(i, g + h) == Replay(Replay(i, g), h)
  {
    if h == [] {
      assert g + h == g;
    } else {
      var n := |h| - 1;
      assert g + h == (g + h[..n]) + [h[n]];
      ReplaySnoc(i, g + h[..n], h[n]);
      ReplaySplit(i, g, h[..n]);
    }
  }

  // ---- delete and recover -------------------------------------------------------------------------

  predicate IsDeleteOf(w: Write, p: Path) {
    w.Result? && w.action.IsDelete() && w.action.path == p
  }

  /** Write k of h is the one that put both existence flags of p back. */
  predicate Recovers(i: Index, h: seq<Write>, p: Path, k: nat)
    requires k < |h|
  {
    && Touches(Replay(i, h[..k]), h[k], p)
    && !Row(Replay(i, h[..k]), p).OnBoth()
    && Row(Replay(i, h[..k + 1]), p).OnBoth()
  }

  lemma {:induction false} BothFlagsComeBack(i: Index, h: seq<Write>, p: Path) returns (k: nat)
    requires !Row(i, p).OnBoth() && Row(Replay(i, h), p).OnBoth()
    ensures k < |h| && Recovers(i, h, p, k)
  {
    var n := |h| - 1;
    assert h[..n + 1] == h;
    if Row(Replay(i, h[..n]), p).OnBoth() {
      k := BothFlagsComeBack(i, h[..n], p);
      assert h[..n][..k] == h[..k] && h[..n][..k + 1] == h[..k + 1];
    } else {
      k := n;
      WriteEffect(Replay(i, h[..n]), h[n], p);
    }
  }

  /** Once a delete of p has been written back, p may be deleted or moved again only after some
      later write put both existence flags back. */
  lemma DeleteThenRecover(i: Index, d: Write, h: seq<Write>, p: Path) returns (k: nat)
    requires IsDeleteOf(d, p) && p != []
    requires MirrorDeletes(Row(Replay(i, [d] + h), p)) || MoveCandidate(Row(Replay(i, [d] + h), p))
    ensures k < |h| && Recovers(Apply1(i, d), h, p, k)
  {
    ReplaySplit(i, [d], h);
    assert Replay(i, [d]) == Apply1(i, d) by { ReplaySnoc(i, [], d); assert [] + [d] == [d]; }
    k := BothFlagsComeBack(Apply1(i, d), h, p);
  }

  // ---- moves --------------------------------------------------------------------------------------

  /** The rows written when one file is moved from each path of the list to the next. */
  function MoveAlong(i: Index, ps: seq<Path>): Index {
    if |ps| < 2 then i
    else var n := |ps| - 1; WriteMove(MoveAlong(i, ps[..n]), ps[n - 1], ps[n])
  }

  /** The row says that neither side has anything, and that nothing was lost. */
  predicate NothingThere(e: Entry) {
    !e.isDir && !e.localExists && !e.remoteExists && !e.tombstone && !e.conflict && e.state == Missing
  }

  lemma MoveRow(i: Index, src: Path, dst: Path, p: Path)
    ensures var j := WriteMove(i, src, dst);
            && MoveCandidate(Row(j, dst)) && !Row(j, dst).isDir
            && (Row(i, src).version >= 0 ==> Row(j, dst).version == Max(Row(i, src).version, Row(i, dst).version) + 1)
            && Row(j, dst).version > Row(i, src).version
            && (p == src && p != dst ==> p in j && NothingThere(Row(j, p)))
            && (p != src && p != dst ==> (p in j <==> p in i) && Row(j, p) == Row(i, p))
  {
  }

  /** Wherever a file is moved to and back, only its last place may be moved or deleted again, each of its
      other places reads as never used, and the last row's version has risen with every move. */
  lemma {:induction false} MoveAlongWritten(i: Index, ps: seq<Path>, p: Path)
    requires |ps| >= 2
    ensures var j, last := MoveAlong(i, ps), ps[|ps| - 1];
            && MoveCandidate(Row(j, last)) && MirrorDeletes(Row(j, last)) && !Row(j, last).isDir
            && Row(j, last).version >= Row(i, ps[0]).version + |ps| - 1
            && (p in ps && p != last ==> p in j && NothingThere(Row(j, p)))
            && (p !in ps ==> (p in j <==> p in i) && Row(j, p) == Row(i, p))
  {
    var n := |ps| - 1;
    assert ps == ps[..n] + [ps[n]] && ps[..n] == ps[..n - 1] + [ps[n - 1]];
    MoveRow(MoveAlong(i, ps[..n]), ps[n - 1], ps[n], p);
    if n > 1 {
      MoveAlongWritten(i, ps[..n], p);
    }
  }

  // ---- conflict names -----------------------------------------------------------------------------

  lemma {:induction false} VersionsRise(i: Index, h: seq<Write>, p: Path)
    ensures Row(Replay(i, h), p).version >= Row(i, p).version
    ensures (exists k :: 0 <= k < |h| && Touches(Replay(i, h[..k]), h[k], p)) ==>
              Row(Replay(i, h), p).version > Row(i, p).version
  {
    if h != [] {
      var n := |h| - 1;
      VersionsRise(i, h[..n], p);
      WriteEffect(Replay(i, h[..n]), h[n], p);
      forall k | 0 <= k < n && Touches(Replay(i, h[..k]), h[k], p)
        ensures Row(Replay(i, h[..n]), p).version > Row(i, p).version
      {
        assert h[..n][..k] == h[..k] && h[..n][k] == h[k];
        assert Touches(Replay(i, h[..n][..k]), h[..n][k], p);
      }
    }
  }

  /** The conflict copy that a plan names for p when the index is i. */
  function CopyName(i: Index, p: Path, marker: string): Path {
    CopyPath(p, marker, NextConflictVersion(Row(i, p)))
  }

  /** How many writes of a history touch the row. */
  function Writes(i: Index, h: seq<Write>, p: Path): nat {
    if h == [] then 0
    else var n := |h| - 1; Writes(i, h[..n], p) + (if Touches(Replay(i, h[..n]), h[n], p) then 1 else 0)
  }

  lemma RaisedByOne(i: Index, w: Write, p: Path)
    requires Touches(i, w, p) && Row(i, p).version >= 0 && !(w.Result? && w.action.IsMove())
    ensures Row(Apply1(i, w), p).version == Row(i, p).version + 1
  {
  }

  /** A row's version counts its writes, as long as none of them is a move. */
  lemma {:induction false} VersionCountsWrites(i: Index, h: seq<Write>, p: Path)
    requires Row(i, p).version >= 0
    requires forall w :: w in h && w.Result? && w.action.IsMove() ==> p != w.action.src && p != w.action.path
    ensures Row(Replay(i, h), p).version == Row(i, p).version + Writes(i, h, p)
  {
    if h != [] {
      var n := |h| - 1;
      assert h[n] in h && forall w :: w in h[..n] ==> w in h;
      VersionCountsWrites(i, h[..n], p);
      if Touches(Replay(i, h[..n]), h[n], p) {
        RaisedByOne(Replay(i, h[..n]), h[n], p);
      } else {
        WriteEffect(Replay(i, h[..n]), h[n], p);
      }
    }
  }

  /** A conflict's copies carry the version that its row has once the conflict is written back: the first
      ones of a path that has no row carry 1. */
  lemma CopiesCarryNextVersion(i: Index, p: Path, copy: Path)
    requires p != [] && Row(i, p).version >= 0
    ensures NextConflictVersion(Row(i, p)) == Row(WriteResult(i, ConflictLocal(p, copy)), p).version
    ensures NextConflictVersion(Row(i, p)) == Row(WriteResult(i, ConflictRemote(p, copy)), p).version
    ensures p !in i ==> NextConflictVersion(Row(i, p)) == 1
  {
  }

  /** Two conflict copies named in one task's life share a path only if they are the same copy of the
      same path, named again with nothing written to that path's row in between. */
  lemma ConflictNamesNotReused(i: Index, h: seq<Write>, p: Path, m: string, q: Path, m': string)
    requires IndexOk(i) && p != [] && q != [] && IsMarker(m) && IsMarker(m')
    requires CopyName(i, p, m) == CopyName(Replay(i, h), q, m')
    ensures p == q && m == m'
    ensures forall k :: 0 <= k < |h| ==> !Touches(Replay(i, h[..k]), h[k], p)
  {
    CopyPathInjective(p, m, NextConflictVersion(Row(i, p)), q, m', NextConflictVersion(Row(Replay(i, h), q)));
    VersionsRise(i, h, p);
  }
}
