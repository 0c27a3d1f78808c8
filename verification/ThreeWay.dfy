/** What a plan makes of two trees that were edited on either side: a three-way merge over what the index
    knows both sides to have had, in which a detected move follows a rename. */
module ThreeWay {
  import opened Trees
  import opened Actions
  import opened Settling
  import opened FileIndex
  import opened Planner
  import opened Convergence
  import opened Conditions
  import opened Stability

  /** The row says that both sides had the path and that neither was seen to lose it. */
  predicate Known(i: Index, p: Path) {
    p in i && i[p].localExists && i[p].remoteExists && !i[p].tombstone
  }

  /** The row is beyond doubt: known, and not marked as a conflict. */
  predicate Clean(i: Index, p: Path) {
    Known(i, p) && !i[p].conflict && i[p].state == Synced
  }

  /** What both sides are to have where they have a and b: what both have is decided by the policy, and what
      only one has stays there and comes to the other. With mirror, though, what was known goes, since it was
      removed from the other side; a directory that only the local side has stays even then. */
  function MergedAt(mirror: bool, preferLocal: bool, known: bool, a: Option<Node>, b: Option<Node>): Option<Node> {
    if a.Some? && b.Some? then (if preferLocal then a else b)
    else if mirror && known && !IsDir(a) then None
    else if a.Some? then a
    else b
  }

  predicate MovedTo(acts: seq<Action>, p: Path) {
    exists a :: a in acts && a.IsMove() && a.path == p
  }

  /** A remote move brings the remote's copy of a file to the place the local side has it at. */
  predicate MovedToRemotely(acts: seq<Action>, p: Path) {
    exists a :: a in acts && a.MoveRemote? && a.path == p
  }

  lemma MoveEnds(l: Tree, r: Tree, i: Index, plan: seq<Action>, p: Path)
    requires MovesOk(l, r, i, plan)
    ensures MovedFrom(plan, p) ==> (LocalOnlyFile(l, r, p) || LocalOnlyFile(r, l, p)) && Clean(i, p)
    ensures MovedTo(plan, p) ==> !MovedFrom(plan, p) && (LocalOnlyFile(l, r, p) || LocalOnlyFile(r, l, p))
    ensures MovedToRemotely(plan, p) ==> LocalOnlyFile(l, r, p)
    ensures MovedTo(plan, p) && !MovedToRemotely(plan, p) ==> LocalOnlyFile(r, l, p) && !Clean(i, p)
    ensures Consumed(plan, p) <==> MovedFrom(plan, p) || MovedTo(plan, p)
  {
    assert forall a :: a in plan ==> MoveOf(l, r, i, a);
  }

  /** At p the tree holds the three-way merge, a moved file being where its move ends and nowhere else. */
  predicate MergesAt(mirror: bool, preferLocal: bool, l: Tree, r: Tree, plan: seq<Action>, known: bool, f: Tree,
                     p: Path)
  {
    At(f, p) ==
    if MovedFrom(plan, p) then None
    else if MovedTo(plan, p) then (if p in l then At(l, p) else At(r, p))
    else MergedAt(mirror, preferLocal, known, At(l, p), At(r, p))
  }

  /** Under every policy a run is meant to leave the three-way merge, conflict copies aside; where a keep_both
      conflict stands, each side with its own version. */
  lemma FinalIsMerge(task: Task, onLocal: bool, l: Tree, r: Tree, i: Index, plan: seq<Action>, f: Tree, p: Path)
    requires Partition(task, l, r, i, plan) && task.direction == Bidirectional
    requires FinalTree(task, onLocal, l, r, plan, f) && !CopiedTo(onLocal, plan, p)
    ensures MergesAt(task.mirror, PrefersLocal(task, onLocal), l, r, plan, Known(i, p), f, p)
  {
    GoneExactly(task, l, r, i, plan, p);
    MoveEnds(l, r, i, plan, p);
  }

  lemma TargetIsMerge(task: Task, l: Tree, r: Tree, i: Index, plan: seq<Action>, p: Path)
    requires Partition(task, l, r, i, plan) && task.direction == Bidirectional && task.policy != KeepBoth
    ensures MergesAt(task.mirror, task.policy == PreferLocal, l, r, plan, Known(i, p), Target(task, l, r, plan), p)
  {
    GoneExactly(task, l, r, i, plan, p);
    MoveEnds(l, r, i, plan, p);
  }

  /** With mirror, moves change nothing about the merge, with one exception: where the two sides have removed
      each other's copies, the file that a remote move brings stays. */
  lemma MovesKeepTheMerge(task: Task, l: Tree, r: Tree, i: Index, plan: seq<Action>, p: Path)
    requires Partition(task, l, r, i, plan) && task.direction == Bidirectional && task.policy != KeepBoth
    requires task.mirror && IndexOk(i) && NoConflictRows(i)
    ensures At(Target(task, l, r, plan), p) ==
            if MovedToRemotely(plan, p) && Known(i, p) then At(l, p)
            else MergedAt(true, task.policy == PreferLocal, Known(i, p), At(l, p), At(r, p))
  {
    TargetIsMerge(task, l, r, i, plan, p);
    MoveEnds(l, r, i, plan, p);
    assert p in i ==> RowOk(i[p]);
  }

  // ---- renames ------------------------------------------------------------------------------------

  /** Of the files that only one side has these two, one on each side, alone have their content. */
  ghost predicate OnlyPair(l: Tree, r: Tree, p: Path, q: Path) {
    && LocalOnlyFile(l, r, p) && LocalOnlyFile(r, l, q) && l[p] == r[q]
    && (forall x :: LocalOnlyFile(l, r, x) && l[x] == l[p] ==> x == p)
    && (forall x :: LocalOnlyFile(r, l, x) && r[x] == r[q] ==> x == q)
  }

  /** Such a pair is joined by a move away from the place that is beyond doubt, the remote one first, and by
      none if neither is. */
  lemma RenameDetected(task: Task, l: Tree, r: Tree, i: Index, plan: seq<Action>, p: Path, q: Path)
    requires BidirectionalPlan(task, l, r, i, plan) && OnlyPair(l, r, p, q)
    ensures MoveRemote(q, p) in plan <==> Clean(i, q)
    ensures MoveLocal(p, q) in plan <==> Clean(i, p) && !Clean(i, q)
    ensures Clean(i, p) || Clean(i, q) || (!Consumed(plan, p) && !Consumed(plan, q))
  {
    forall a | a in plan && a.IsMove() && (p == a.src || p == a.path || q == a.src || q == a.path)
      ensures a == (if Clean(i, q) then MoveRemote(q, p) else MoveLocal(p, q)) && (Clean(i, p) || Clean(i, q))
    {
      assert MoveOf(l, r, i, a);
    }
    if Clean(i, p) || Clean(i, q) {
      assert Joinable(l, r, i, p, q);
    }
  }

  // ---- the run after a run ------------------------------------------------------------------------

  /** A run that ended with equal trees leaves an index that knows exactly what they hold. */
  lemma BaselineKnows(i: Index, t: Tree, p: Path)
    ensures var j := WriteSnapshot(i, t, t);
            (Known(j, p) <==> p in t) && (Clean(j, p) <==> p in t) && IndexOk(j) && NoConflictRows(j)
  {
  }

  /** On the remote nothing is new below a directory that both sides had and the local side has removed. */
  ghost predicate NothingNewBelowRemoved(t: Tree, l: Tree, r: Tree) {
    forall d, p :: IsDir(At(r, d)) && d !in l && d in t && p in r && Inside(p, d) ==> p in t
  }

  /** Between two runs the sides are edited to l and r. If the first run ended with two equal trees, then the
      second does so exactly if no path clashes and, with mirror, nothing is new on the remote below a directory
      that was removed locally. Then it has merged l and r over what the first run left: with mirror, a path
      that only one side still has is gone if both had it, and everything else is kept. */
  lemma LaterRunMerges(task: Task, a: RunState, b: RunState, first: seq<Action>, l: Tree, r: Tree,
                       plan: seq<Action>, p: Path)
    requires Round(task, a, b, first) && b.sides.local == b.sides.remote
    requires task.direction == Bidirectional && task.policy != KeepBoth && PrefixClosed(l) && PrefixClosed(r)
    requires BidirectionalPlan(task, l, r, b.index, plan)
    ensures var t, o := b.sides.local, Run(plan, Sides(l, r));
            && (Converged(o) <==> NoClash(l, r) && (task.mirror ==> NothingNewBelowRemoved(t, l, r)))
            && (Converged(o) ==>
                  MergesAt(task.mirror, task.policy == PreferLocal, l, r, plan, p in t, o.sides.local, p))
            && (Converged(o) && task.mirror && !(MovedToRemotely(plan, p) && p in t) ==>
                  At(o.sides.local, p) == MergedAt(true, task.policy == PreferLocal, p in t, At(l, p), At(r, p)))
  {
    var t, i := b.sides.local, b.index;
    assert i == WriteSnapshot(a.index, t, t);
    BaselineKnows(a.index, t, p);
    BaselineConvergesExactly(task, l, r, i, plan);
    forall x ensures ShouldDelete(task, Row(i, x)) <==> task.mirror && x in t {
      BaselineKnows(a.index, t, x);
    }
    assert DeletesWholeDirs(task, l, r, i) <==> (task.mirror ==> NothingNewBelowRemoved(t, l, r));
    TargetIsMerge(task, l, r, i, plan, p);
    if task.mirror {
      MovesKeepTheMerge(task, l, r, i, plan, p);
    }
  }

  /** What a removal comes to. With mirror, a path of the first run that one side has removed since, and that no
      move ends at, is on neither side after the second, a directory that only the local side kept excepted;
      without mirror it is back on both sides, if no move started there. */
  lemma RemovalFollowed(task: Task, a: RunState, b: RunState, first: seq<Action>, l: Tree, r: Tree,
                        plan: seq<Action>, p: Path)
    requires Round(task, a, b, first) && b.sides.local == b.sides.remote && p in b.sides.local
    requires task.direction == Bidirectional && task.policy != KeepBoth && PrefixClosed(l) && PrefixClosed(r)
    requires BidirectionalPlan(task, l, r, b.index, plan) && Converged(Run(plan, Sides(l, r)))
    ensures var o := Run(plan, Sides(l, r)).sides;
            && (task.mirror && !MovedTo(plan, p) && (p !in l || p !in r) && (IsDir(At(l, p)) ==> p in r) ==>
                  p !in o.local && p !in o.remote)
            && (!task.mirror && !MovedFrom(plan, p) && (p in l || p in r) ==> p in o.local && p in o.remote)
  {
    LaterRunMerges(task, a, b, first, l, r, plan, p);
    MoveEnds(l, r, b.index, plan, p);
    assert forall t: Tree :: p in t <==> At(t, p) != None;
  }

  /** A file of the first run that one side renamed to a new place is, after the second, at that place on both
      sides and at the old one on neither, with mirror or without it. */
  lemma RenameFollowed(task: Task, a: RunState, b: RunState, first: seq<Action>, l: Tree, r: Tree,
                       plan: seq<Action>, p: Path, q: Path)
    requires Round(task, a, b, first) && b.sides.local == b.sides.remote
    requires task.direction == Bidirectional && task.policy != KeepBoth && PrefixClosed(l) && PrefixClosed(r)
    requires BidirectionalPlan(task, l, r, b.index, plan) && Converged(Run(plan, Sides(l, r))) && OnlyPair(l, r, p, q)
    ensures var t, o := b.sides.local, Run(plan, Sides(l, r)).sides;
            && (q in t ==> MoveRemote(q, p) in plan && At(o.local, p) == At(l, p) && q !in o.local)
            && (p in t && q !in t ==> MoveLocal(p, q) in plan && At(o.local, q) == At(r, q) && p !in o.local)
  {
    var t := b.sides.local;
    RenameDetected(task, l, r, b.index, plan, p, q);
    BaselineKnows(a.index, t, p);
    BaselineKnows(a.index, t, q);
    LaterRunMerges(task, a, b, first, l, r, plan, p);
    LaterRunMerges(task, a, b, first, l, r, plan, q);
    MoveEnds(l, r, b.index, plan, p);
    MoveEnds(l, r, b.index, plan, q);
    assert MoveRemote(q, p) in plan ==> MovedTo(plan, p) && MovedFrom(plan, q);
    assert MoveLocal(p, q) in plan ==> MovedTo(plan, q) && MovedFrom(plan, p);
    assert At(Run(plan, Sides(l, r)).sides.local, p) != None ==> p in Run(plan, Sides(l, r)).sides.local;
  }
}
