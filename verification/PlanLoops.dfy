/** The planning loops. A map is iterated by taking an arbitrary remaining key, so every result holds
    for every iteration order. */
module PlanLoops {
  import opened Trees
  import opened Actions
  import opened FileIndex
  import opened ConflictNames
  import opened Planner
  import opened Detection
  import opened Readability

  // ---- move detection -----------------------------------------------------------------------------

  /** Consumed keeps the endpoints of the moves found so far. */
  ghost predicate Endpoints(acts: seq<Action>, localConsumed: set<Path>, remoteConsumed: set<Path>) {
    && (forall p :: p in localConsumed <==> LocalEnd(acts, p))
    && (forall p :: p in remoteConsumed <==> RemoteEnd(acts, p))
  }

  /** A local file that only the local side has, is unused and equals the remote file old. */
  method FindLocal(l: Tree, r: Tree, oldPath: Path, used: set<Path>) returns (found: Option<Path>)
    requires oldPath in r && oldPath !in l
    ensures found.Some? ==> found.value !in used && LocalOnlyFile(l, r, found.value) && l[found.value] == r[oldPath]
    ensures found.None? ==> forall p :: LocalOnlyFile(l, r, p) && l[p] == r[oldPath] ==> p in used
  {
    var todo := l.Keys;
    while todo != {}
      invariant todo <= l.Keys
      invariant forall p :: p in l.Keys - todo && LocalOnlyFile(l, r, p) && l[p] == r[oldPath] ==> p in used
    {
      var p :| p in todo;
      todo := todo - {p};
      if p == oldPath || l[p].Dir? || p in r || p in used {
        continue;
      }
      if SameFile(At(r, oldPath), At(l, p)) {
        return Some(p);
      }
    }
    return None;
  }

  /** The same for a local path. Reading a local directory for the comparison is an error. */
  method FindRemote(l: Tree, r: Tree, oldPath: Path, used: set<Path>) returns (ok: bool, found: Option<Path>)
    requires oldPath in l && oldPath !in r
    ensures ok && found.Some? ==>
              found.value !in used && LocalOnlyFile(r, l, found.value) && l[oldPath] == r[found.value]
    ensures ok && found.None? ==> forall p :: LocalOnlyFile(r, l, p) && l[oldPath] == r[p] ==> p in used
    ensures !ok <==> l[oldPath].Dir? && exists p :: LocalOnlyFile(r, l, p) && p !in used
  {
    var todo := r.Keys;
    while todo != {}
      invariant todo <= r.Keys
      invariant forall p :: p in r.Keys - todo && LocalOnlyFile(r, l, p) && l[oldPath] == r[p] ==> p in used
      invariant l[oldPath].Dir? ==> forall p :: p in r.Keys - todo && LocalOnlyFile(r, l, p) ==> p in used
    {
      var p :| p in todo;
      todo := todo - {p};
      if p == oldPath || r[p].Dir? || p in l || p in used {
        continue;
      }
      if l[oldPath].Dir? {
        assert LocalOnlyFile(r, l, p) && p !in used;
        return false, None;
      }
      if SameFile(At(r, p), At(l, oldPath)) {
        return true, Some(p);
      }
    }
    return true, None;
  }

  /** One visit of the first loop. */
  method VisitRemote(l: Tree, r: Tree, i: Index, q: Path, acts: seq<Action>, localConsumed: set<Path>,
                     remoteConsumed: set<Path>)
    returns (next: seq<Action>, nextLocal: set<Path>, nextRemote: set<Path>)
    requires q in r && Endpoints(acts, localConsumed, remoteConsumed) && !RemoteEnd(acts, q)
    ensures RemoteVisit(l, r, i, acts, q, next) && Endpoints(next, nextLocal, nextRemote)
  {
    next, nextLocal, nextRemote := acts, localConsumed, remoteConsumed;
    if !MoveCandidate(Row(i, q)) || q in l {
      return;
    }
    var found := FindLocal(l, r, q, localConsumed);
    if found.Some? {
      assert FreePair(l, r, acts, found.value, q);
      EndsAfter(acts, MoveRemote(q, found.value));
      next := acts + [MoveRemote(q, found.value)];
      nextLocal, nextRemote := localConsumed + {found.value}, remoteConsumed + {q};
    }
  }

  /** The first loop, over remote paths. */
  method DetectRemoteMoves(l: Tree, r: Tree, i: Index)
    returns (acts: seq<Action>, localConsumed: set<Path>, remoteConsumed: set<Path>, ghost order: seq<Path>)
    ensures Lists(order, r.Keys) && RemoteVisits(l, r, i, order, acts)
    ensures Endpoints(acts, localConsumed, remoteConsumed)
    ensures FirstStage(l, r, i, acts, r.Keys)
    ensures (forall q :: LocalOnlyFile(r, l, q) ==> RemoteEnd(acts, q)) <==> AllRemotesMove(l, r, i)
  {
    acts, localConsumed, remoteConsumed, order := [], {}, {}, [];
    var todo := r.Keys;
    while todo != {}
      invariant todo <= r.Keys
      invariant Lists(order, r.Keys - todo) && RemoteVisits(l, r, i, order, acts)
      invariant FirstStage(l, r, i, acts, r.Keys - todo)
      invariant Endpoints(acts, localConsumed, remoteConsumed)
    {
      var q :| q in todo;
      ghost var seen, before := r.Keys - todo, acts;
      todo := todo - {q};
      assert r.Keys - todo == seen + {q};
      acts, localConsumed, remoteConsumed := VisitRemote(l, r, i, q, acts, localConsumed, remoteConsumed);
      RemoteVisitKeeps(l, r, i, before, seen, q, acts);
      OneMore(order, seen, q);
      RemoteVisitNext(l, r, i, order, before, q, acts);
      order := order + [q];
    }
    FirstLoopExactly(l, r, i, acts);
  }

  lemma EndsAfter(acts: seq<Action>, m: Action)
    ensures forall p :: LocalEnd(acts + [m], p) <==>
              LocalEnd(acts, p) || (m.MoveRemote? && m.path == p) || (m.MoveLocal? && m.src == p)
    ensures forall p :: RemoteEnd(acts + [m], p) <==>
              RemoteEnd(acts, p) || (m.MoveRemote? && m.src == p) || (m.MoveLocal? && m.path == p)
  {
    assert forall a :: a in acts + [m] <==> a in acts || a == m;
  }

  lemma OneMore(order: seq<Path>, seen: set<Path>, p: Path)
    requires Lists(order, seen) && p !in seen
    ensures Lists(order + [p], seen + {p})
  {
    assert forall k :: 0 <= k < |order| ==> order[k] in order;
    assert forall x :: x in order + [p] <==> x in order || x == p;
  }

  /** One visit of the second loop. */
  method VisitLocal(l: Tree, r: Tree, i: Index, p: Path, acts: seq<Action>, localConsumed: set<Path>,
                    remoteConsumed: set<Path>)
    returns (ok: bool, next: seq<Action>, nextLocal: set<Path>, nextRemote: set<Path>)
    requires p in l && Endpoints(acts, localConsumed, remoteConsumed) && MovesOk(l, r, i, acts)
    ensures LocalVisit(l, r, i, acts, p, ok, next) && Endpoints(next, nextLocal, nextRemote)
  {
    ok, next, nextLocal, nextRemote := true, acts, localConsumed, remoteConsumed;
    EndsAreOneSided(l, r, i, acts);
    if !MoveCandidate(Row(i, p)) || p in r || p in localConsumed {
      return;
    }
    var found;
    ok, found := FindRemote(l, r, p, remoteConsumed);
    if !ok {
      ghost var q :| LocalOnlyFile(r, l, q) && q !in remoteConsumed;
      assert UnreadableCandidate(l, r, i, p) && FreeRemote(l, r, acts, q);
    } else if found.Some? {
      assert FreePair(l, r, acts, p, found.value);
      EndsAfter(acts, MoveLocal(p, found.value));
      next := acts + [MoveLocal(p, found.value)];
      nextLocal, nextRemote := localConsumed + {p}, remoteConsumed + {found.value};
    } else {
      assert forall q :: !FreePair(l, r, acts, p, q);
      assert l[p].Dir? ==> forall q :: !FreeRemote(l, r, acts, q);
    }
  }

  /** Both loops: some orders of visits lead to this outcome. The moves found are a matching that a success
      leaves maximal. Detection fails exactly if there is a local directory that the index calls clean and
      the remote lacks, and a remote-only file that the moves found so far have not used up. */
  method DetectMoves(l: Tree, r: Tree, i: Index)
    returns (ok: bool, acts: seq<Action>, localConsumed: set<Path>, remoteConsumed: set<Path>)
    ensures Detected(l, r, i, ok, acts)
    ensures MoveList(l, r, i, acts) && Endpoints(acts, localConsumed, remoteConsumed)
    ensures ok ==> Maximal(l, r, i, acts)
    ensures ok <==> Readable(l, r, i, acts)
  {
    ghost var remotes, first;
    acts, localConsumed, remoteConsumed, remotes := DetectRemoteMoves(l, r, i);
    first := acts;
    ghost var order: seq<Path> := [];
    ok := true;
    var todo := l.Keys;
    while todo != {} && ok
      invariant todo <= l.Keys
      invariant Lists(order, l.Keys - todo) && LocalVisits(l, r, i, first, order, ok, acts)
      invariant Endpoints(acts, localConsumed, remoteConsumed)
      invariant ok ==> SecondStage(l, r, i, acts, l.Keys - todo)
      decreases todo, ok
    {
      var p :| p in todo;
      ghost var seen, before := l.Keys - todo, acts;
      todo := todo - {p};
      assert l.Keys - todo == seen + {p};
      ok, acts, localConsumed, remoteConsumed := VisitLocal(l, r, i, p, acts, localConsumed, remoteConsumed);
      LocalVisitKeeps(l, r, i, before, seen, p, ok, acts);
      OneMore(order, seen, p);
      LocalVisitNext(l, r, i, first, order, before, p, ok, acts);
      order := order + [p];
    }
    assert Detected(l, r, i, ok, acts);
    DetectedIs(l, r, i, ok, acts);
  }

  // ---- the bidirectional plan ---------------------------------------------------------------------

  /** The moves, followed by the decisions for the paths in done. */
  ghost predicate Decided(task: Task, l: Tree, r: Tree, i: Index, moves: seq<Action>, acts: seq<Action>,
                          done: set<Path>)
  {
    && |moves| <= |acts| && acts[..|moves|] == moves
    && (forall k :: |moves| <= k < |acts| ==> DecidedAction(task, l, r, i, moves, done, acts[k]))
    && (forall p, a :: p in done && !Consumed(moves, p) && a in Decide(task, l, r, i, p) ==> a in acts)
    && NoRepeats(acts)
  }

  ghost predicate DecidedAction(task: Task, l: Tree, r: Tree, i: Index, moves: seq<Action>, done: set<Path>,
                                a: Action)
  {
    !a.IsMove() && a.path in done && !Consumed(moves, a.path) && a in Decide(task, l, r, i, a.path)
  }

  lemma DecideNext(task: Task, l: Tree, r: Tree, i: Index, moves: seq<Action>, acts: seq<Action>, done: set<Path>,
                   p: Path, added: seq<Action>)
    requires Decided(task, l, r, i, moves, acts, done) && MoveList(l, r, i, moves)
    requires if Consumed(moves, p) || p in done then added == [] else added == Decide(task, l, r, i, p)
    ensures Decided(task, l, r, i, moves, acts + added, done + {p})
  {
    var all := acts + added;
    var n := |acts|;
    assert forall k :: 0 <= k < n ==> all[k] == acts[k];
    assert forall k :: n <= k < |all| ==> all[k] == added[k - n] && all[k] in added;
    assert all[..|moves|] == moves;
    if added != [] {
      forall a | a in added ensures a.path == p && !a.IsMove() { DecisionNamesPath(task, l, r, i, p, a); }
      forall k | 0 <= k < n ensures all[k].path != p || all[k].IsMove() {
        if k < |moves| { assert acts[k] == acts[..|moves|][k] == moves[k] && moves[k] in moves; }
      }
      assert NoRepeats(added);
    }
    assert forall a :: a in acts || a in added ==> a in all;
  }

  lemma PlanComplete(task: Task, l: Tree, r: Tree, i: Index, moves: seq<Action>, acts: seq<Action>)
    requires Decided(task, l, r, i, moves, acts, l.Keys + r.Keys) && MoveList(l, r, i, moves) && Maximal(l, r, i, moves)
    ensures BidirectionalPlan(task, l, r, i, acts)
    ensures forall p :: RemoteEnd(acts, p) <==> RemoteEnd(moves, p)
  {
    assert forall k :: 0 <= k < |moves| ==> acts[k] == acts[..|moves|][k] == moves[k] && moves[k] in moves;
    assert forall a :: a in moves ==> a in acts by {
      forall a | a in moves ensures a in acts {
        var k :| 0 <= k < |moves| && moves[k] == a;
        assert acts[k] == a;
      }
    }
    assert forall a :: a in acts && a.IsMove() ==> a in moves;
    assert forall p :: LocalEnd(acts, p) <==> LocalEnd(moves, p);
    assert forall p :: RemoteEnd(acts, p) <==> RemoteEnd(moves, p);
    forall p, q | Joinable(l, r, i, p, q) ensures LocalEnd(acts, p) || RemoteEnd(acts, q) {
      assert LocalEnd(moves, p) || RemoteEnd(moves, q);
    }
  }

  /** The first loop's body for a path that no move has used. */
  method DecideLocal(task: Task, l: Tree, r: Tree, i: Index, p: Path) returns (next: seq<Action>)
    requires p in l
    ensures next == Decide(task, l, r, i, p)
  {
    next := [];
    if l[p].Dir? {
      next := [CreateDirRemote(p)];
    } else if p !in r {
      if ShouldDelete(task, Row(i, p)) {
        next := [DeleteLocal(p, false)];
      } else {
        next := [UploadFile(p)];
      }
    } else if r[p].Dir? || SameFile(At(r, p), At(l, p)) {
    } else {
      match task.policy {
        case PreferRemote => next := [DownloadFile(p)];
        case PreferLocal => next := [UploadFile(p)];
        case KeepBoth =>
          var version := NextConflictVersion(Row(i, p));
          next := [ConflictLocal(p, CopyPath(p, LOCAL_COPY, version)),
                   ConflictRemote(p, CopyPath(p, REMOTE_COPY, version))];
      }
    }
  }

  /** The plan, which covers every path of either side, or a failure. Both are outcomes of move detection in
      some order of visits; Readability.ReadableExactly says which inputs leave no choice. */
  method PlanBidirectional(task: Task, l: Tree, r: Tree, i: Index) returns (ok: bool, acts: seq<Action>)
    ensures ok ==> BidirectionalPlan(task, l, r, i, acts) && Readable(l, r, i, acts)
    ensures exists moves :: Detected(l, r, i, ok, moves) && (ok ==> moves <= acts)
    ensures NeverReadable(l, r, i) ==> !ok
    ensures AlwaysReadable(l, r, i) ==> ok
  {
    var moves, consumedLocal, consumedRemote;
    ok, moves, consumedLocal, consumedRemote := DetectMoves(l, r, i);
    OutcomeDecided(l, r, i, ok, moves);
    if !ok {
      return false, [];
    }
    EndsAreOneSided(l, r, i, moves);
    acts := moves;
    var todo := l.Keys;
    while todo != {}
      invariant todo <= l.Keys
      invariant Decided(task, l, r, i, moves, acts, l.Keys - todo)
    {
      var p :| p in todo;
      ghost var done := l.Keys - todo;
      todo := todo - {p};
      assert l.Keys - todo == done + {p};
      var next := [];
      if p !in consumedLocal {
        next := DecideLocal(task, l, r, i, p);
      }
      DecideNext(task, l, r, i, moves, acts, done, p, next);
      acts := acts + next;
    }
    todo := r.Keys;
    while todo != {}
      invariant todo <= r.Keys
      invariant Decided(task, l, r, i, moves, acts, l.Keys + (r.Keys - todo))
    {
      var p :| p in todo;
      ghost var done := l.Keys + (r.Keys - todo);
      todo := todo - {p};
      assert l.Keys + (r.Keys - todo) == done + {p};
      var next := [];
      if p in consumedRemote || p in l {
      } else if ShouldDelete(task, Row(i, p)) {
        next := [DeleteRemote(p, r[p].Dir?)];
      } else if r[p].Dir? {
        next := [CreateDirLocal(p)];
      } else {
        next := [DownloadFile(p)];
      }
      DecideNext(task, l, r, i, moves, acts, done, p, next);
      acts := acts + next;
    }
    assert l.Keys + (r.Keys - todo) == l.Keys + r.Keys;
    PlanComplete(task, l, r, i, moves, acts);
  }

  // ---- the one-way plans --------------------------------------------------------------------------

  method PlanUpload(task: Task, l: Tree, r: Tree) returns (acts: seq<Action>)
    ensures UploadPlan(task, l, r, acts) && NoRepeats(acts)
  {
    acts := [];
    var todo := l.Keys;
    while todo != {}
      invariant todo <= l.Keys && NoRepeats(acts)
      invariant forall a :: a in acts ==> a.path in l.Keys - todo && UploadDecision(task, l, r, a.path) == Some(a)
      invariant forall p :: p in l.Keys - todo ==> UploadDecision(task, l, r, p).value in acts
    {
      var p :| p in todo;
      todo := todo - {p};
      acts := acts + [if l[p].Dir? then CreateDirRemote(p) else UploadFile(p)];
    }
    if task.mirror {
      todo := r.Keys;
      while todo != {}
        invariant todo <= r.Keys && NoRepeats(acts)
        invariant forall a :: a in acts ==> a.path !in todo - l.Keys && UploadDecision(task, l, r, a.path) == Some(a)
        invariant forall p :: p in l ==> UploadDecision(task, l, r, p).value in acts
        invariant forall p :: p in r.Keys - todo ==> UploadDecision(task, l, r, p).value in acts
      {
        var p :| p in todo;
        todo := todo - {p};
        if p !in l {
          acts := acts + [DeleteRemote(p, r[p].Dir?)];
        }
      }
    }
  }

  method PlanDownload(task: Task, l: Tree, r: Tree) returns (acts: seq<Action>)
    ensures DownloadPlan(task, l, r, acts) && NoRepeats(acts)
  {
    acts := [];
    var todo := r.Keys;
    while todo != {}
      invariant todo <= r.Keys && NoRepeats(acts)
      invariant forall a :: a in acts ==> a.path in r.Keys - todo && DownloadDecision(task, l, r, a.path) == Some(a)
      invariant forall p :: p in r.Keys - todo ==> DownloadDecision(task, l, r, p).value in acts
    {
      var p :| p in todo;
      todo := todo - {p};
      acts := acts + [if r[p].Dir? then CreateDirLocal(p) else DownloadFile(p)];
    }
    if task.mirror {
      todo := l.Keys;
      while todo != {}
        invariant todo <= l.Keys && NoRepeats(acts)
        invariant forall a :: a in acts ==> a.path !in todo - r.Keys && DownloadDecision(task, l, r, a.path) == Some(a)
        invariant forall p :: p in r ==> DownloadDecision(task, l, r, p).value in acts
        invariant forall p :: p in l.Keys - todo ==> DownloadDecision(task, l, r, p).value in acts
      {
        var p :| p in todo;
        todo := todo - {p};
        if p !in r {
          acts := acts + [DeleteLocal(p, l[p].Dir?)];
        }
      }
    }
  }

  // ---- any direction ------------------------------------------------------------------------------

  /** A plan of the task's direction. */
  ghost predicate PlanOf(task: Task, l: Tree, r: Tree, i: Index, acts: seq<Action>) {
    match task.direction
    case UploadOnly => UploadPlan(task, l, r, acts) && NoRepeats(acts)
    case DownloadOnly => DownloadPlan(task, l, r, acts) && NoRepeats(acts)
    case Bidirectional => BidirectionalPlan(task, l, r, i, acts) && Readable(l, r, i, acts)
  }

  /** Only a bidirectional plan can fail. An upload without mirror does not even list the remote. */
  method Plan(task: Task, l: Tree, r: Tree, i: Index) returns (ok: bool, acts: seq<Action>)
    ensures ok ==> PlanOf(task, l, r, i, acts)
    ensures !ok ==> task.direction == Bidirectional && !AlwaysReadable(l, r, i)
    ensures task.direction == Bidirectional && NeverReadable(l, r, i) ==> !ok
  {
    match task.direction {
      case UploadOnly =>
        var remote := if task.mirror then r else map[];
        acts := PlanUpload(task, l, remote);
        assert UploadPlan(task, l, r, acts) by {
          forall p ensures UploadDecision(task, l, r, p) == UploadDecision(task, l, remote, p) {}
        }
        ok := true;
      case DownloadOnly =>
        acts := PlanDownload(task, l, r);
        ok := true;
      case Bidirectional =>
        ok, acts := PlanBidirectional(task, l, r, i);
    }
  }
}
