/** Exactly when planning fails over a directory it cannot read: in every order of visits, and in some. */
module Readability {
  import opened Trees
  import opened Actions
  import opened FileIndex
  import opened Planner
  import opened Detection

  // ---- counting files -----------------------------------------------------------------------------

  /** The files with this content that only the local side has, those of them with a clean row, and the same
      for the remote side, where it is the unclean rows that matter. */
  function LocalTwins(l: Tree, r: Tree, n: Node): set<Path> {
    set p | p in l && LocalOnlyFile(l, r, p) && l[p] == n
  }

  function CleanLocalTwins(l: Tree, r: Tree, i: Index, n: Node): set<Path> {
    set p | p in LocalTwins(l, r, n) && MoveCandidate(Row(i, p))
  }

  function RemoteTwins(l: Tree, r: Tree, n: Node): set<Path> {
    set q | q in r && LocalOnlyFile(r, l, q) && r[q] == n
  }

  function UncleanRemoteTwins(l: Tree, r: Tree, i: Index, n: Node): set<Path> {
    set q | q in RemoteTwins(l, r, n) && !MoveCandidate(Row(i, q))
  }

  /** Every remote-only file moves itself in the first loop: its row is clean, and there are enough equal
      local files for all its equals. */
  ghost predicate AllRemotesMove(l: Tree, r: Tree, i: Index) {
    forall q :: LocalOnlyFile(r, l, q) ==>
      MoveCandidate(Row(i, q)) && |RemoteTwins(l, r, r[q])| <= |LocalTwins(l, r, r[q])|
  }

  /** Some content has more remote-only files than local-only ones, or more with an unclean row, which only a
      local move can use up, than there are clean local ones. */
  ghost predicate SomeRemoteLeftOver(l: Tree, r: Tree, i: Index) {
    exists q :: LocalOnlyFile(r, l, q)
      && (|RemoteTwins(l, r, r[q])| > |LocalTwins(l, r, r[q])|
          || |UncleanRemoteTwins(l, r, i, r[q])| > |CleanLocalTwins(l, r, i, r[q])|)
  }

  /** Planning never fails: nothing is unreadable, or the first loop leaves nothing to compare it with. */
  ghost predicate AlwaysReadable(l: Tree, r: Tree, i: Index) {
    (forall d :: !UnreadableCandidate(l, r, i, d)) || AllRemotesMove(l, r, i)
  }

  /** Planning always fails: something is unreadable, and some remote file is left to compare it with. */
  ghost predicate NeverReadable(l: Tree, r: Tree, i: Index) {
    (exists d :: UnreadableCandidate(l, r, i, d)) && SomeRemoteLeftOver(l, r, i)
  }

  // ---- moves pair files ---------------------------------------------------------------------------

  /** A move has the local end p and the remote end q. */
  predicate Joins(a: Action, p: Path, q: Path) {
    (a.MoveRemote? && a.path == p && a.src == q) || (a.MoveLocal? && a.src == p && a.path == q)
  }

  predicate Joined(acts: seq<Action>, p: Path, q: Path) {
    exists a :: a in acts && Joins(a, p, q)
  }

  lemma JoinedOnce(l: Tree, r: Tree, i: Index, acts: seq<Action>, p: Path, q: Path, p': Path, q': Path)
    requires MovesOk(l, r, i, acts) && Joined(acts, p, q) && Joined(acts, p', q')
    ensures p == p' <==> q == q'
    ensures SameOnEachSide(l, r, p, q)
  {
    var a :| a in acts && Joins(a, p, q);
    var b :| b in acts && Joins(b, p', q');
    assert MoveOf(l, r, i, a) && MoveOf(l, r, i, b);
  }

  lemma {:induction false} InjectionFits(f: map<Path, Path>, image: set<Path>)
    requires forall x :: x in f ==> f[x] in image
    requires forall x, y :: x in f && y in f && f[x] == f[y] ==> x == y
    ensures |f.Keys| <= |image|
    decreases |image|
  {
    if x :| x in f {
      var g := f - {x};
      assert f.Keys == g.Keys + {x} && x !in g;
      InjectionFits(g, image - {f[x]});
    } else {
      assert f.Keys == {};
    }
  }

  /** Local files that are all joined with files of a set are no more than those. */
  lemma LocalsFit(l: Tree, r: Tree, i: Index, acts: seq<Action>, ps: set<Path>, qs: set<Path>)
    requires MovesOk(l, r, i, acts) && forall p :: p in ps ==> exists q :: q in qs && Joined(acts, p, q)
    ensures |ps| <= |qs|
  {
    var f := map p {:trigger p in ps} | p in ps :: RemotePartner(acts, qs, p);
    forall x, y | x in f && y in f && f[x] == f[y] ensures x == y {
      JoinedOnce(l, r, i, acts, x, f[x], y, f[y]);
    }
    InjectionFits(f, qs);
    assert f.Keys == ps;
  }

  lemma RemotesFit(l: Tree, r: Tree, i: Index, acts: seq<Action>, qs: set<Path>, ps: set<Path>)
    requires MovesOk(l, r, i, acts) && forall q :: q in qs ==> exists p :: p in ps && Joined(acts, p, q)
    ensures |qs| <= |ps|
  {
    var f := map q {:trigger q in qs} | q in qs :: LocalPartner(acts, ps, q);
    forall x, y | x in f && y in f && f[x] == f[y] ensures x == y {
      JoinedOnce(l, r, i, acts, f[x], x, f[y], y);
    }
    InjectionFits(f, ps);
    assert f.Keys == qs;
  }

  ghost function RemotePartner(acts: seq<Action>, qs: set<Path>, p: Path): (q: Path)
    requires exists q :: q in qs && Joined(acts, p, q)
    ensures q in qs && Joined(acts, p, q)
  {
    var q :| q in qs && Joined(acts, p, q);
    q
  }

  ghost function LocalPartner(acts: seq<Action>, ps: set<Path>, q: Path): (p: Path)
    requires exists p :: p in ps && Joined(acts, p, q)
    ensures p in ps && Joined(acts, p, q)
  {
    var p :| p in ps && Joined(acts, p, q);
    p
  }

  lemma LocalEndJoined(l: Tree, r: Tree, i: Index, acts: seq<Action>, p: Path) returns (q: Path)
    requires MovesOk(l, r, i, acts) && LocalEnd(acts, p)
    ensures Joined(acts, p, q) && SameOnEachSide(l, r, p, q) && RemoteEnd(acts, q)
  {
    var a :| a in acts && ((a.MoveRemote? && a.path == p) || (a.MoveLocal? && a.src == p));
    q := if a.MoveRemote? then a.src else a.path;
    assert Joins(a, p, q) && MoveOf(l, r, i, a);
  }

  lemma RemoteEndJoined(l: Tree, r: Tree, i: Index, acts: seq<Action>, q: Path) returns (p: Path)
    requires MovesOk(l, r, i, acts) && RemoteEnd(acts, q)
    ensures Joined(acts, p, q) && SameOnEachSide(l, r, p, q)
    ensures !MoveCandidate(Row(i, q)) ==> MoveCandidate(Row(i, p))
  {
    var a :| a in acts && ((a.MoveRemote? && a.src == q) || (a.MoveLocal? && a.path == q));
    p := if a.MoveRemote? then a.path else a.src;
    assert Joins(a, p, q) && MoveOf(l, r, i, a);
  }

  /** If all equals of q are used up, there are enough local files for them. */
  lemma UsedUpFits(l: Tree, r: Tree, i: Index, acts: seq<Action>, q: Path)
    requires MovesOk(l, r, i, acts) && LocalOnlyFile(r, l, q)
    requires forall q' :: q' in RemoteTwins(l, r, r[q]) ==> RemoteEnd(acts, q')
    ensures |RemoteTwins(l, r, r[q])| <= |LocalTwins(l, r, r[q])|
    ensures |UncleanRemoteTwins(l, r, i, r[q])| <= |CleanLocalTwins(l, r, i, r[q])|
  {
    var n := r[q];
    forall q' | q' in RemoteTwins(l, r, n) ensures exists p :: p in LocalTwins(l, r, n) && Joined(acts, p, q') {
      var p := RemoteEndJoined(l, r, i, acts, q');
    }
    RemotesFit(l, r, i, acts, RemoteTwins(l, r, n), LocalTwins(l, r, n));
    forall q' | q' in UncleanRemoteTwins(l, r, i, n)
      ensures exists p :: p in CleanLocalTwins(l, r, i, n) && Joined(acts, p, q')
    {
      var p := RemoteEndJoined(l, r, i, acts, q');
    }
    RemotesFit(l, r, i, acts, UncleanRemoteTwins(l, r, i, n), CleanLocalTwins(l, r, i, n));
  }

  /** If the local equals of a free remote file are used up, there are fewer of them than of its own. */
  lemma LeftOverExceeds(l: Tree, r: Tree, i: Index, acts: seq<Action>, q: Path)
    requires MovesOk(l, r, i, acts) && FreeRemote(l, r, acts, q)
    requires forall p :: p in LocalTwins(l, r, r[q]) ==> LocalEnd(acts, p)
    ensures |RemoteTwins(l, r, r[q])| > |LocalTwins(l, r, r[q])|
  {
    var n := r[q];
    var others := RemoteTwins(l, r, n) - {q};
    forall p | p in LocalTwins(l, r, n) ensures exists q' :: q' in others && Joined(acts, p, q') {
      var q' := LocalEndJoined(l, r, i, acts, p);
      assert q' in others;
    }
    LocalsFit(l, r, i, acts, LocalTwins(l, r, n), others);
    assert RemoteTwins(l, r, n) == others + {q};
  }

  /** The first loop uses up every remote-only file exactly if every one of them moves itself. */
  lemma FirstLoopExactly(l: Tree, r: Tree, i: Index, acts: seq<Action>)
    requires FirstStage(l, r, i, acts, r.Keys)
    ensures (forall q :: LocalOnlyFile(r, l, q) ==> RemoteEnd(acts, q)) <==> AllRemotesMove(l, r, i)
  {
    if forall q :: LocalOnlyFile(r, l, q) ==> RemoteEnd(acts, q) {
      forall q | LocalOnlyFile(r, l, q)
        ensures MoveCandidate(Row(i, q)) && |RemoteTwins(l, r, r[q])| <= |LocalTwins(l, r, r[q])|
      {
        UsedUpFits(l, r, i, acts, q);
        var a :| a in acts && ((a.MoveRemote? && a.src == q) || (a.MoveLocal? && a.path == q));
        assert MoveOf(l, r, i, a);
      }
    } else {
      var q :| LocalOnlyFile(r, l, q) && !RemoteEnd(acts, q);
      if MoveCandidate(Row(i, q)) {
        forall p | p in LocalTwins(l, r, r[q]) ensures LocalEnd(acts, p) {
          assert q in r.Keys && SameOnEachSide(l, r, p, q);
        }
        LeftOverExceeds(l, r, i, acts, q);
      }
    }
  }

  // ---- orders that fail and orders that do not ----------------------------------------------------

  lemma {:induction false} ListingOf(keys: set<Path>) returns (order: seq<Path>)
    ensures Lists(order, keys)
    decreases |keys|
  {
    order := [];
    if p :| p in keys {
      var rest := ListingOf(keys - {p});
      order := rest + [p];
      assert forall x :: x in order <==> x in rest || x == p;
    }
  }

  /** A move took a clean local file only when no unclean equal one was free any more. */
  ghost predicate UncleanFirst(l: Tree, r: Tree, i: Index, acts: seq<Action>) {
    forall a, p :: a in acts && TakesClean(l, i, a) && p in LocalTwins(l, r, l[a.path]) && !MoveCandidate(Row(i, p)) ==>
      LocalEnd(acts, p)
  }

  predicate TakesClean(l: Tree, i: Index, a: Action) {
    a.MoveRemote? && a.path in l && MoveCandidate(Row(i, a.path))
  }

  lemma EndsGrow(acts: seq<Action>, m: Action)
    ensures forall p :: LocalEnd(acts, p) ==> LocalEnd(acts + [m], p)
    ensures forall a :: a in acts + [m] <==> a in acts || a == m
  {
    assert forall a :: a in acts + [m] <==> a in acts || a == m;
  }

  lemma VisitUncleanFirst(l: Tree, r: Tree, i: Index, acts: seq<Action>, q: Path) returns (next: seq<Action>)
    requires UncleanFirst(l, r, i, acts)
    ensures RemoteVisit(l, r, i, acts, q, next) && UncleanFirst(l, r, i, next)
  {
    next := acts;
    if MoveCandidate(Row(i, q)) {
      if p :| FreePair(l, r, acts, p, q) && !MoveCandidate(Row(i, p)) {
        next := acts + [MoveRemote(q, p)];
        EndsGrow(acts, MoveRemote(q, p));
      } else if p :| FreePair(l, r, acts, p, q) {
        next := acts + [MoveRemote(q, p)];
        EndsGrow(acts, MoveRemote(q, p));
        forall x | x in LocalTwins(l, r, l[p]) && !MoveCandidate(Row(i, x)) ensures LocalEnd(acts, x) {
          assert !FreePair(l, r, acts, x, q);
        }
      }
    }
  }

  lemma {:induction false} FirstLoopRuns(l: Tree, r: Tree, i: Index, order: seq<Path>) returns (acts: seq<Action>)
    ensures RemoteVisits(l, r, i, order, acts) && UncleanFirst(l, r, i, acts)
  {
    acts := [];
    if order != [] {
      var before := FirstLoopRuns(l, r, i, order[..|order| - 1]);
      acts := VisitUncleanFirst(l, r, i, before, order[|order| - 1]);
    }
  }

  lemma {:induction false} SecondLoopRuns(l: Tree, r: Tree, i: Index, first: seq<Action>, order: seq<Path>)
    returns (acts: seq<Action>)
    requires UncleanFirst(l, r, i, first) && forall p :: p in order ==> !UnreadableCandidate(l, r, i, p)
    ensures LocalVisits(l, r, i, first, order, true, acts) && UncleanFirst(l, r, i, acts)
  {
    acts := first;
    if order != [] {
      var n := |order| - 1;
      assert order[n] in order && forall p :: p in order[..n] ==> p in order;
      var before := SecondLoopRuns(l, r, i, first, order[..n]);
      acts := before;
      if q :| MoveCandidate(Row(i, order[n])) && FreePair(l, r, before, order[n], q) {
        acts := before + [MoveLocal(order[n], q)];
        EndsGrow(before, MoveLocal(order[n], q));
      }
      assert LocalVisit(l, r, i, before, order[n], true, acts);
    }
  }

  /** Once no remote file is free, directories can be visited too. */
  lemma {:induction false} VisitsAfterwards(l: Tree, r: Tree, i: Index, first: seq<Action>, order: seq<Path>,
                                            acts: seq<Action>, more: seq<Path>)
    requires LocalVisits(l, r, i, first, order, true, acts) && forall q :: !FreeRemote(l, r, acts, q)
    ensures LocalVisits(l, r, i, first, order + more, true, acts)
  {
    if more == [] {
      assert order + more == order;
    } else {
      var n := |more| - 1;
      VisitsAfterwards(l, r, i, first, order, acts, more[..n]);
      assert (order + more)[..|order + more| - 1] == order + more[..n];
      assert LocalVisit(l, r, i, acts, more[n], true, acts);
    }
  }

  /** If some remote file is left over, the second loop may come to a directory first. */
  lemma FailureExists(l: Tree, r: Tree, i: Index) returns (acts: seq<Action>)
    requires !AlwaysReadable(l, r, i)
    ensures Detected(l, r, i, false, acts)
  {
    var remotes := ListingOf(r.Keys);
    acts := FirstLoopRuns(l, r, i, remotes);
    RemoteVisitsStage(l, r, i, remotes, acts);
    assert Visited(remotes) == r.Keys;
    FirstLoopExactly(l, r, i, acts);
    var d :| UnreadableCandidate(l, r, i, d);
    var q :| LocalOnlyFile(r, l, q) && !RemoteEnd(acts, q);
    assert FreeRemote(l, r, acts, q);
    LocalVisitNext(l, r, i, acts, [], acts, d, false, acts);
    assert [] + [d] == [d];
    assert ListsUnlessFailed([d], l.Keys, false);
  }

  /** Visiting files before directories, and unclean local files before clean ones, leaves no remote file over
      unless one is left over in every order. */
  lemma FilesFirstUsesAll(l: Tree, r: Tree, i: Index, acts: seq<Action>, seen: set<Path>, q: Path)
    requires SecondStage(l, r, i, acts, seen) && UncleanFirst(l, r, i, acts) && FreeRemote(l, r, acts, q)
    requires forall p :: IsFile(At(l, p)) ==> p in seen
    ensures SomeRemoteLeftOver(l, r, i)
  {
    var n := r[q];
    if MoveCandidate(Row(i, q)) {
      forall p | p in LocalTwins(l, r, n) ensures LocalEnd(acts, p) {
        assert q in r.Keys && SameOnEachSide(l, r, p, q);
      }
      LeftOverExceeds(l, r, i, acts, q);
    } else {
      forall p | p in CleanLocalTwins(l, r, i, n) ensures LocalEnd(acts, p) {
        assert p in seen && SameOnEachSide(l, r, p, q);
      }
      if a :| a in acts && a.MoveRemote? && a.path in CleanLocalTwins(l, r, i, n) {
        assert forall p :: p in LocalTwins(l, r, n) ==> LocalEnd(acts, p);
        LeftOverExceeds(l, r, i, acts, q);
      } else {
        UncleanLeftOver(l, r, i, acts, q);
      }
    }
  }

  lemma MovedToUnclean(l: Tree, r: Tree, i: Index, acts: seq<Action>, p: Path) returns (q: Path)
    requires MovesOk(l, r, i, acts) && LocalEnd(acts, p) && forall a :: a in acts && a.MoveRemote? ==> a.path != p
    ensures Joined(acts, p, q) && SameOnEachSide(l, r, p, q) && RemoteEnd(acts, q) && !MoveCandidate(Row(i, q))
  {
    q := LocalEndJoined(l, r, i, acts, p);
    var a :| a in acts && Joins(a, p, q);
    assert MoveOf(l, r, i, a) && a.MoveLocal?;
  }

  lemma PartnerUnclean(l: Tree, r: Tree, i: Index, acts: seq<Action>, q: Path, p: Path)
    requires MovesOk(l, r, i, acts) && FreeRemote(l, r, acts, q) && p in CleanLocalTwins(l, r, i, r[q])
    requires LocalEnd(acts, p) && forall a :: a in acts && a.MoveRemote? ==> a.path != p
    ensures exists q' :: q' in UncleanRemoteTwins(l, r, i, r[q]) - {q} && Joined(acts, p, q')
  {
    var q' := MovedToUnclean(l, r, i, acts, p);
    assert q' in UncleanRemoteTwins(l, r, i, r[q]) - {q};
  }

  lemma UncleanLeftOver(l: Tree, r: Tree, i: Index, acts: seq<Action>, q: Path)
    requires MovesOk(l, r, i, acts) && FreeRemote(l, r, acts, q) && !MoveCandidate(Row(i, q))
    requires forall p :: p in CleanLocalTwins(l, r, i, r[q]) ==> LocalEnd(acts, p)
    requires forall a :: a in acts && a.MoveRemote? ==> a.path !in CleanLocalTwins(l, r, i, r[q])
    ensures |UncleanRemoteTwins(l, r, i, r[q])| > |CleanLocalTwins(l, r, i, r[q])|
  {
    var all, clean := UncleanRemoteTwins(l, r, i, r[q]), CleanLocalTwins(l, r, i, r[q]);
    forall p | p in clean ensures exists q' :: q' in all - {q} && Joined(acts, p, q') {
      PartnerUnclean(l, r, i, acts, q, p);
    }
    LocalsFit(l, r, i, acts, clean, all - {q});
    assert q in all;
  }

  lemma SuccessExists(l: Tree, r: Tree, i: Index) returns (acts: seq<Action>)
    requires !NeverReadable(l, r, i)
    ensures Detected(l, r, i, true, acts)
  {
    var remotes := ListingOf(r.Keys);
    var first := FirstLoopRuns(l, r, i, remotes);
    var dirs := set d | d in l && UnreadableCandidate(l, r, i, d);
    var readable := ListingOf(l.Keys - dirs);
    acts := SecondLoopRuns(l, r, i, first, readable);
    if dirs == {} {
      assert l.Keys - dirs == l.Keys;
    } else {
      var d :| d in dirs && UnreadableCandidate(l, r, i, d);
      NoneLeftOver(l, r, i, remotes, first, readable, acts);
      var unreadable := ListingOf(dirs);
      VisitsAfterwards(l, r, i, first, readable, acts, unreadable);
      BothListings(readable, unreadable, l.Keys, dirs);
    }
  }

  lemma NoneLeftOver(l: Tree, r: Tree, i: Index, remotes: seq<Path>, first: seq<Action>, locals: seq<Path>,
                     acts: seq<Action>)
    requires Lists(remotes, r.Keys) && RemoteVisits(l, r, i, remotes, first) && !SomeRemoteLeftOver(l, r, i)
    requires LocalVisits(l, r, i, first, locals, true, acts) && UncleanFirst(l, r, i, acts)
    requires forall p :: IsFile(At(l, p)) ==> p in locals
    ensures forall q :: !FreeRemote(l, r, acts, q)
  {
    RemoteVisitsStage(l, r, i, remotes, first);
    assert Visited(remotes) == r.Keys;
    LocalVisitsStage(l, r, i, first, locals, true, acts);
    forall q ensures !FreeRemote(l, r, acts, q) {
      if FreeRemote(l, r, acts, q) {
        FilesFirstUsesAll(l, r, i, acts, Visited(locals), q);
      }
    }
  }

  lemma BothListings(a: seq<Path>, b: seq<Path>, keys: set<Path>, dirs: set<Path>)
    requires dirs <= keys && Lists(a, keys - dirs) && Lists(b, dirs)
    ensures Lists(a + b, keys)
  {
    assert forall p :: p in a + b <==> p in a || p in b;
    assert forall k :: 0 <= k < |a| ==> a[k] in a;
    assert forall k :: 0 <= k < |b| ==> b[k] in b;
  }

  /** Detection succeeds in every order exactly if AlwaysReadable, and fails in every order exactly if
      NeverReadable. */
  lemma ReadableExactly(l: Tree, r: Tree, i: Index)
    ensures (forall ok, acts :: Detected(l, r, i, ok, acts) ==> ok) <==> AlwaysReadable(l, r, i)
    ensures (forall ok, acts :: Detected(l, r, i, ok, acts) ==> !ok) <==> NeverReadable(l, r, i)
  {
    forall ok, acts | Detected(l, r, i, ok, acts)
      ensures AlwaysReadable(l, r, i) ==> ok
      ensures NeverReadable(l, r, i) ==> !ok
    {
      OutcomeDecided(l, r, i, ok, acts);
    }
    if !AlwaysReadable(l, r, i) { var acts := FailureExists(l, r, i); }
    if !NeverReadable(l, r, i) { var acts := SuccessExists(l, r, i); }
  }

  lemma OutcomeDecided(l: Tree, r: Tree, i: Index, ok: bool, acts: seq<Action>)
    requires Detected(l, r, i, ok, acts)
    ensures AlwaysReadable(l, r, i) ==> ok
    ensures NeverReadable(l, r, i) ==> !ok
  {
    DetectedIs(l, r, i, ok, acts);
    if NeverReadable(l, r, i) && ok {
      var q :| LocalOnlyFile(r, l, q)
        && (|RemoteTwins(l, r, r[q])| > |LocalTwins(l, r, r[q])|
            || |UncleanRemoteTwins(l, r, i, r[q])| > |CleanLocalTwins(l, r, i, r[q])|);
      UsedUpFits(l, r, i, acts, q);
    }
    if AllRemotesMove(l, r, i) {
      AllMovedInEnd(l, r, i, ok, acts);
    }
  }

  lemma AllMovedInEnd(l: Tree, r: Tree, i: Index, ok: bool, acts: seq<Action>)
    requires Detected(l, r, i, ok, acts) && AllRemotesMove(l, r, i)
    ensures Readable(l, r, i, acts)
  {
    DetectedIs(l, r, i, ok, acts);
    forall q | LocalOnlyFile(r, l, q) ensures RemoteEnd(acts, q) {
      if !RemoteEnd(acts, q) {
        forall p | p in LocalTwins(l, r, r[q]) ensures LocalEnd(acts, p) {
          assert q in r.Keys && SameOnEachSide(l, r, p, q);
        }
        LeftOverExceeds(l, r, i, acts, q);
      }
    }
  }
}
