/** What a plan is: the decision for each path, and the moves detected between the two sides. */
module Planner {
  import opened Trees
  import opened Actions
  import opened ConflictNames
  import opened FileIndex

  datatype Direction = UploadOnly | DownloadOnly | Bidirectional

  /** Any policy text other than the two prefer policies means keep_both. */
  datatype Policy = PreferLocal | PreferRemote | KeepBoth

  datatype Task = Task(direction: Direction, mirror: bool, policy: Policy)

  predicate ShouldDelete(task: Task, e: Entry) {
    task.direction == Bidirectional && task.mirror && MirrorDeletes(e)
  }

  /** Two files on the two sides with equal bytes; a directory never compares equal. */
  predicate SameFile(a: Option<Node>, b: Option<Node>) {
    IsFile(a) && a == b
  }

  function ResolveConflict(task: Task, i: Index, p: Path): seq<Action> {
    match task.policy
    case PreferRemote => [DownloadFile(p)]
    case PreferLocal => [UploadFile(p)]
    case KeepBoth =>
      [ConflictLocal(p, CopyName(i, p, LOCAL_COPY)), ConflictRemote(p, CopyName(i, p, REMOTE_COPY))]
  }

  /** The bidirectional decision for a path of either side that no move has consumed. */
  function Decide(task: Task, l: Tree, r: Tree, i: Index, p: Path): seq<Action> {
    if p in l then
      if l[p].Dir? then [CreateDirRemote(p)]
      else if p !in r then
        if ShouldDelete(task, Row(i, p)) then [DeleteLocal(p, false)] else [UploadFile(p)]
      else if r[p].Dir? || SameFile(At(r, p), At(l, p)) then []
      else ResolveConflict(task, i, p)
    else if p in r then
      if ShouldDelete(task, Row(i, p)) then [DeleteRemote(p, r[p].Dir?)]
      else if r[p].Dir? then [CreateDirLocal(p)]
      else [DownloadFile(p)]
    else []
  }

  // ---- moves --------------------------------------------------------------------------------------

  /** The local paths that are an endpoint of some move in acts. */
  predicate LocalEnd(acts: seq<Action>, p: Path) {
    exists a :: a in acts && ((a.MoveRemote? && a.path == p) || (a.MoveLocal? && a.src == p))
  }

  predicate RemoteEnd(acts: seq<Action>, p: Path) {
    exists a :: a in acts && ((a.MoveRemote? && a.src == p) || (a.MoveLocal? && a.path == p))
  }

  predicate Consumed(acts: seq<Action>, p: Path) {
    LocalEnd(acts, p) || RemoteEnd(acts, p)
  }

  predicate LocalOnlyFile(l: Tree, r: Tree, p: Path) {
    IsFile(At(l, p)) && p !in r
  }

  /** A move joins a file that only one side has with an equal file that only the other side has. Where
      both rows are clean it is the remote file that moves. */
  ghost predicate MoveOf(l: Tree, r: Tree, i: Index, a: Action) {
    && (a.MoveRemote? ==>
          LocalOnlyFile(l, r, a.path) && LocalOnlyFile(r, l, a.src) && l[a.path] == r[a.src]
          && MoveCandidate(Row(i, a.src)))
    && (a.MoveLocal? ==>
          LocalOnlyFile(l, r, a.src) && LocalOnlyFile(r, l, a.path) && l[a.src] == r[a.path]
          && MoveCandidate(Row(i, a.src)) && !MoveCandidate(Row(i, a.path)))
  }

  /** No two different moves share an endpoint. */
  ghost predicate Matching(acts: seq<Action>) {
    forall a, b :: a in acts && b in acts && a.IsMove() && b.IsMove() && a != b ==>
      a.src != b.src && a.path != b.path && a.src != b.path
  }

  /** A pair the detection would have joined. */
  ghost predicate Joinable(l: Tree, r: Tree, i: Index, p: Path, q: Path) {
    && LocalOnlyFile(l, r, p) && LocalOnlyFile(r, l, q) && l[p] == r[q]
    && (MoveCandidate(Row(i, p)) || MoveCandidate(Row(i, q)))
  }

  /** Detection leaves no joinable pair with both ends free. */
  ghost predicate Maximal(l: Tree, r: Tree, i: Index, acts: seq<Action>) {
    forall p, q :: Joinable(l, r, i, p, q) ==> LocalEnd(acts, p) || RemoteEnd(acts, q)
  }

  ghost predicate MovesOk(l: Tree, r: Tree, i: Index, acts: seq<Action>) {
    (forall a :: a in acts ==> MoveOf(l, r, i, a)) && Matching(acts)
  }

  predicate NoRepeats(acts: seq<Action>) {
    forall j, k :: 0 <= j < k < |acts| ==> acts[j] != acts[k]
  }

  predicate MovesLead(acts: seq<Action>) {
    forall j, k :: 0 <= j < k < |acts| && acts[k].IsMove() ==> acts[j].IsMove()
  }

  // ---- the plans ----------------------------------------------------------------------------------

  /** Every path of either side is the endpoint of one move or is decided, never both. */
  ghost predicate Partition(task: Task, l: Tree, r: Tree, i: Index, acts: seq<Action>) {
    && MovesOk(l, r, i, acts)
    && (forall a :: a in acts && !a.IsMove() ==>
          (a.path in l || a.path in r) && !Consumed(acts, a.path) && a in Decide(task, l, r, i, a.path))
    && (forall p, a {:trigger a in Decide(task, l, r, i, p)} ::
          (p in l || p in r) && !Consumed(acts, p) && a in Decide(task, l, r, i, p) ==> a in acts)
  }

  /** acts consists of the detected moves, which come first, and of the decisions for all other paths. */
  ghost predicate BidirectionalPlan(task: Task, l: Tree, r: Tree, i: Index, acts: seq<Action>) {
    Partition(task, l, r, i, acts) && Maximal(l, r, i, acts) && NoRepeats(acts) && MovesLead(acts)
  }

  function UploadDecision(task: Task, l: Tree, r: Tree, p: Path): Option<Action> {
    if p in l then Some(if l[p].Dir? then CreateDirRemote(p) else UploadFile(p))
    else if p in r && task.mirror then Some(DeleteRemote(p, r[p].Dir?))
    else None
  }

  function DownloadDecision(task: Task, l: Tree, r: Tree, p: Path): Option<Action> {
    if p in r then Some(if r[p].Dir? then CreateDirLocal(p) else DownloadFile(p))
    else if p in l && task.mirror then Some(DeleteLocal(p, l[p].Dir?))
    else None
  }

  ghost predicate UploadPlan(task: Task, l: Tree, r: Tree, acts: seq<Action>) {
    && (forall a :: a in acts ==> UploadDecision(task, l, r, a.path) == Some(a))
    && (forall p :: UploadDecision(task, l, r, p).Some? ==> UploadDecision(task, l, r, p).value in acts)
  }

  ghost predicate DownloadPlan(task: Task, l: Tree, r: Tree, acts: seq<Action>) {
    && (forall a :: a in acts ==> DownloadDecision(task, l, r, a.path) == Some(a))
    && (forall p :: DownloadDecision(task, l, r, p).Some? ==> DownloadDecision(task, l, r, p).value in acts)
  }

  /** A decision yields actions for its own path and no moves; a delete names a path that the
      other side lacks, of local entries a file. */
  lemma DecisionNamesPath(task: Task, l: Tree, r: Tree, i: Index, p: Path, a: Action)
    requires a in Decide(task, l, r, i, p)
    ensures a.path == p && !a.IsMove()
    ensures a.DeleteLocal? ==> p !in r && IsFile(At(l, p))
    ensures a.DeleteRemote? ==> p !in l && p in r
  {
  }
}
