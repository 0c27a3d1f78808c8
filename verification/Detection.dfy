/** Move detection as visits of paths in any order: what a detection can come to, and when planning fails
    over a directory it cannot read, in every order and in some. */
module Detection {
  import opened Trees
  import opened Actions
  import opened FileIndex
  import opened Planner

  // ---- lists of moves -----------------------------------------------------------------------------

  ghost predicate MoveList(l: Tree, r: Tree, i: Index, acts: seq<Action>) {
    MovesOk(l, r, i, acts) && NoRepeats(acts) && forall a :: a in acts ==> a.IsMove()
  }

  lemma AddMove(l: Tree, r: Tree, i: Index, acts: seq<Action>, m: Action)
    requires MoveList(l, r, i, acts) && m.IsMove() && MoveOf(l, r, i, m)
    requires !Consumed(acts, m.src) && !Consumed(acts, m.path)
    ensures MoveList(l, r, i, acts + [m])
    ensures forall p :: LocalEnd(acts + [m], p) <==> LocalEnd(acts, p) || p == (if m.MoveRemote? then m.path else m.src)
    ensures forall p :: RemoteEnd(acts + [m], p) <==>
              RemoteEnd(acts, p) || p == (if m.MoveRemote? then m.src else m.path)
  {
    var all := acts + [m];
    assert forall a :: a in all <==> a in acts || a == m;
    forall a | a in acts ensures a != m && a.src != m.src && a.path != m.path && a.src != m.path && m.src != a.path {
      assert Consumed(acts, a.src) && Consumed(acts, a.path);
    }
    assert all[|acts|] == m && forall k :: 0 <= k < |acts| ==> all[k] == acts[k] && acts[k] in acts;
  }

  lemma EndsAreOneSided(l: Tree, r: Tree, i: Index, acts: seq<Action>)
    requires MovesOk(l, r, i, acts)
    ensures forall p :: LocalEnd(acts, p) ==> LocalOnlyFile(l, r, p)
    ensures forall p :: RemoteEnd(acts, p) ==> LocalOnlyFile(r, l, p)
  {
    assert forall a :: a in acts ==> MoveOf(l, r, i, a);
  }

  predicate SameOnEachSide(l: Tree, r: Tree, p: Path, q: Path) {
    LocalOnlyFile(l, r, p) && LocalOnlyFile(r, l, q) && l[p] == r[q]
  }

  /** What the first loop, over remote paths, has settled. */
  ghost predicate RemoteScanned(l: Tree, r: Tree, i: Index, acts: seq<Action>, scanned: set<Path>) {
    forall p, q :: q in scanned && SameOnEachSide(l, r, p, q) && MoveCandidate(Row(i, q)) ==>
      LocalEnd(acts, p) || RemoteEnd(acts, q)
  }

  ghost predicate LocalScanned(l: Tree, r: Tree, i: Index, acts: seq<Action>, scanned: set<Path>) {
    forall p, q :: p in scanned && SameOnEachSide(l, r, p, q) && MoveCandidate(Row(i, p)) ==>
      LocalEnd(acts, p) || RemoteEnd(acts, q)
  }

  /** A local directory the index calls clean and only the local side has: comparing it with a file fails. */
  predicate UnreadableCandidate(l: Tree, r: Tree, i: Index, d: Path) {
    IsDir(At(l, d)) && d !in r && MoveCandidate(Row(i, d))
  }

  /** The detected moves leave nothing to compare an unreadable candidate with. */
  ghost predicate Readable(l: Tree, r: Tree, i: Index, moves: seq<Action>) {
    forall d, p :: UnreadableCandidate(l, r, i, d) && LocalOnlyFile(r, l, p) ==> RemoteEnd(moves, p)
  }

  // ---- the visits of the two loops ----------------------------------------------------------------

  predicate FreeLocal(l: Tree, r: Tree, acts: seq<Action>, p: Path) {
    LocalOnlyFile(l, r, p) && !LocalEnd(acts, p)
  }

  predicate FreeRemote(l: Tree, r: Tree, acts: seq<Action>, q: Path) {
    LocalOnlyFile(r, l, q) && !RemoteEnd(acts, q)
  }

  /** The two paths hold equal files, each on its own side only, and no move has used them. */
  predicate FreePair(l: Tree, r: Tree, acts: seq<Action>, p: Path, q: Path) {
    FreeLocal(l, r, acts, p) && FreeRemote(l, r, acts, q) && l[p] == r[q]
  }

  /** The first loop comes to the remote path q: it is joined with any free equal file, if there is one. */
  ghost predicate RemoteVisit(l: Tree, r: Tree, i: Index, acts: seq<Action>, q: Path, next: seq<Action>) {
    if MoveCandidate(Row(i, q)) && exists p :: FreePair(l, r, acts, p, q)
    then exists p :: FreePair(l, r, acts, p, q) && next == acts + [MoveRemote(q, p)]
    else next == acts
  }

  ghost predicate RemoteVisits(l: Tree, r: Tree, i: Index, order: seq<Path>, acts: seq<Action>) {
    if order == [] then acts == []
    else
      var n := |order| - 1;
      exists before :: RemoteVisits(l, r, i, order[..n], before) && RemoteVisit(l, r, i, before, order[n], acts)
  }

  /** The second loop comes to the local path p. A directory is compared with any free remote file, which
      fails; a file is joined with any free equal one. */
  ghost predicate LocalVisit(l: Tree, r: Tree, i: Index, acts: seq<Action>, p: Path, ok: bool, next: seq<Action>) {
    if UnreadableCandidate(l, r, i, p) && exists q :: FreeRemote(l, r, acts, q) then !ok && next == acts
    else if MoveCandidate(Row(i, p)) && exists q :: FreePair(l, r, acts, p, q)
    then ok && exists q :: FreePair(l, r, acts, p, q) && next == acts + [MoveLocal(p, q)]
    else ok && next == acts
  }

  ghost predicate LocalVisits(l: Tree, r: Tree, i: Index, first: seq<Action>, order: seq<Path>, ok: bool,
                              acts: seq<Action>)
  {
    if order == [] then ok && acts == first
    else
      var n := |order| - 1;
      exists before ::
        LocalVisits(l, r, i, first, order[..n], true, before) && LocalVisit(l, r, i, before, order[n], ok, acts)
  }

  predicate Distinct(order: seq<Path>) {
    forall j, k :: 0 <= j < k < |order| ==> order[j] != order[k]
  }

  ghost predicate Lists(order: seq<Path>, keys: set<Path>) {
    Distinct(order) && forall p :: p in order <==> p in keys
  }

  /** The second loop's order: all keys, or some if it ended with a failure. */
  ghost predicate ListsUnlessFailed(order: seq<Path>, keys: set<Path>, ok: bool) {
    Distinct(order) && (forall p :: p in order ==> p in keys) && (ok ==> forall p :: p in keys ==> p in order)
  }

  /** Some orders of visits lead to these moves and this outcome. */
  ghost predicate Detected(l: Tree, r: Tree, i: Index, ok: bool, acts: seq<Action>) {
    exists remotes, first, locals ::
      && Lists(remotes, r.Keys) && RemoteVisits(l, r, i, remotes, first)
      && ListsUnlessFailed(locals, l.Keys, ok) && LocalVisits(l, r, i, first, locals, ok, acts)
  }

  // ---- what the visits leave ----------------------------------------------------------------------

  function Visited(order: seq<Path>): set<Path> {
    set p | p in order
  }

  ghost predicate FirstStage(l: Tree, r: Tree, i: Index, acts: seq<Action>, seen: set<Path>) {
    && MoveList(l, r, i, acts) && RemoteScanned(l, r, i, acts, seen)
    && forall a :: a in acts ==> a.MoveRemote? && a.src in seen
  }

  ghost predicate SecondStage(l: Tree, r: Tree, i: Index, acts: seq<Action>, seen: set<Path>) {
    && MoveList(l, r, i, acts) && RemoteScanned(l, r, i, acts, r.Keys) && LocalScanned(l, r, i, acts, seen)
    && forall d, q :: d in seen && UnreadableCandidate(l, r, i, d) ==> !FreeRemote(l, r, acts, q)
  }

  lemma RemoteVisitKeeps(l: Tree, r: Tree, i: Index, acts: seq<Action>, seen: set<Path>, q: Path, next: seq<Action>)
    requires FirstStage(l, r, i, acts, seen) && RemoteVisit(l, r, i, acts, q, next)
    ensures FirstStage(l, r, i, next, seen + {q})
  {
    if next != acts {
      var p :| FreePair(l, r, acts, p, q) && next == acts + [MoveRemote(q, p)];
      EndsAreOneSided(l, r, i, acts);
      AddMove(l, r, i, acts, MoveRemote(q, p));
    } else {
      assert forall p :: SameOnEachSide(l, r, p, q) && MoveCandidate(Row(i, q)) ==> !FreePair(l, r, acts, p, q);
    }
  }

  lemma {:induction false} RemoteVisitsStage(l: Tree, r: Tree, i: Index, order: seq<Path>, acts: seq<Action>)
    requires RemoteVisits(l, r, i, order, acts)
    ensures FirstStage(l, r, i, acts, Visited(order))
  {
    if order != [] {
      var n := |order| - 1;
      var before :| RemoteVisits(l, r, i, order[..n], before) && RemoteVisit(l, r, i, before, order[n], acts);
      RemoteVisitsStage(l, r, i, order[..n], before);
      RemoteVisitKeeps(l, r, i, before, Visited(order[..n]), order[n], acts);
      assert order == order[..n] + [order[n]];
      assert Visited(order) == Visited(order[..n]) + {order[n]};
    }
  }

  lemma RemoteVisitNext(l: Tree, r: Tree, i: Index, order: seq<Path>, acts: seq<Action>, q: Path, next: seq<Action>)
    requires RemoteVisits(l, r, i, order, acts) && RemoteVisit(l, r, i, acts, q, next)
    ensures RemoteVisits(l, r, i, order + [q], next)
  {
    assert (order + [q])[..|order|] == order;
  }

  lemma LocalVisitNext(l: Tree, r: Tree, i: Index, first: seq<Action>, order: seq<Path>, acts: seq<Action>, p: Path,
                       ok: bool, next: seq<Action>)
    requires LocalVisits(l, r, i, first, order, true, acts) && LocalVisit(l, r, i, acts, p, ok, next)
    ensures LocalVisits(l, r, i, first, order + [p], ok, next)
  {
    assert (order + [p])[..|order|] == order;
  }

  lemma LocalVisitKeeps(l: Tree, r: Tree, i: Index, acts: seq<Action>, seen: set<Path>, p: Path, ok: bool,
                        next: seq<Action>)
    requires SecondStage(l, r, i, acts, seen) && LocalVisit(l, r, i, acts, p, ok, next)
    ensures ok ==> SecondStage(l, r, i, next, seen + {p})
    ensures !ok ==> SecondStage(l, r, i, next, seen) && !Readable(l, r, i, next)
  {
    if !ok {
      var q :| FreeRemote(l, r, acts, q);
      assert UnreadableCandidate(l, r, i, p) && LocalOnlyFile(r, l, q);
    } else if next != acts {
      var q :| FreePair(l, r, acts, p, q) && next == acts + [MoveLocal(p, q)];
      EndsAreOneSided(l, r, i, acts);
      assert !MoveCandidate(Row(i, q)) by { assert q in r.Keys && SameOnEachSide(l, r, p, q); }
      AddMove(l, r, i, acts, MoveLocal(p, q));
    } else {
      assert forall q :: SameOnEachSide(l, r, p, q) && MoveCandidate(Row(i, p)) ==> !FreePair(l, r, acts, p, q);
    }
  }

  lemma {:induction false} LocalVisitsStage(l: Tree, r: Tree, i: Index, first: seq<Action>, order: seq<Path>,
                                            ok: bool, acts: seq<Action>)
    requires FirstStage(l, r, i, first, r.Keys) && LocalVisits(l, r, i, first, order, ok, acts)
    ensures ok ==> SecondStage(l, r, i, acts, Visited(order))
    ensures !ok ==> SecondStage(l, r, i, acts, {}) && !Readable(l, r, i, acts)
  {
    if order != [] {
      var n := |order| - 1;
      var before :|
        LocalVisits(l, r, i, first, order[..n], true, before) && LocalVisit(l, r, i, before, order[n], ok, acts);
      LocalVisitsStage(l, r, i, first, order[..n], true, before);
      LocalVisitKeeps(l, r, i, before, Visited(order[..n]), order[n], ok, acts);
      assert order == order[..n] + [order[n]];
      assert Visited(order) == Visited(order[..n]) + {order[n]};
    }
  }

  /** The moves found are a matching, and a complete detection leaves no joinable pair free. It fails exactly
      over a clean local-only directory with a remote-only file that the moves leave over. */
  lemma DetectedIs(l: Tree, r: Tree, i: Index, ok: bool, acts: seq<Action>)
    requires Detected(l, r, i, ok, acts)
    ensures MoveList(l, r, i, acts) && RemoteScanned(l, r, i, acts, r.Keys)
    ensures ok ==> Maximal(l, r, i, acts)
    ensures ok <==> Readable(l, r, i, acts)
  {
    var remotes, first, locals :|
      && Lists(remotes, r.Keys) && RemoteVisits(l, r, i, remotes, first)
      && ListsUnlessFailed(locals, l.Keys, ok) && LocalVisits(l, r, i, first, locals, ok, acts);
    RemoteVisitsStage(l, r, i, remotes, first);
    assert Visited(remotes) == r.Keys;
    LocalVisitsStage(l, r, i, first, locals, ok, acts);
    if ok {
      assert Visited(locals) == l.Keys;
      forall d, q | UnreadableCandidate(l, r, i, d) && LocalOnlyFile(r, l, q) ensures RemoteEnd(acts, q) {
        assert d in l.Keys && !FreeRemote(l, r, acts, q);
      }
      forall p, q | Joinable(l, r, i, p, q) ensures LocalEnd(acts, p) || RemoteEnd(acts, q) {
        assert p in l.Keys && q in r.Keys && SameOnEachSide(l, r, p, q);
      }
    }
  }
}
