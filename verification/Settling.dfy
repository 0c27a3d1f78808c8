/** Why the order of a plan's actions hardly matters. Fix the two trees before a run and the two
    trees it should end with. An action is sound when every path it can change, it changes to its
    final value. Any sequence of sound actions that reaches every changed path, in any order and
    with repetitions, then ends in the final trees. */
module Settling {
  import opened Trees
  import opened Actions

  datatype World = World(l0: Tree, r0: Tree, fl: Tree, fr: Tree)

  ghost predicate DirOk(t0: Tree, f: Tree, d: Path) {
    IsDir(At(f, d)) && !IsFile(At(t0, d))
  }

  ghost predicate DirsOk(t0: Tree, f: Tree, p: Path) {
    forall d :: d != [] && Covers(d, p) ==> DirOk(t0, f, d)
  }

  ghost predicate ParentsOk(t0: Tree, f: Tree, p: Path) {
    p != [] && forall d :: d != [] && Inside(p, d) ==> DirOk(t0, f, d)
  }

  /** Copying the file at `from` on one side (which keeps it) to `to` on the other side. */
  ghost predicate CopyOk(s0: Tree, sf: Tree, from: Path, d0: Tree, df: Tree, to: Path) {
    && IsFile(At(s0, from)) && At(sf, from) == At(s0, from)
    && At(df, to) == At(s0, from) && !IsDir(At(d0, to)) && ParentsOk(d0, df, to)
  }

  ghost predicate ClearOk(f: Tree, d: Path) {
    forall p :: Covers(d, p) ==> p !in f
  }

  ghost predicate MoveOk(t0: Tree, f: Tree, src: Path, p: Path) {
    && IsFile(At(t0, src)) && src !in f
    && p !in t0 && At(f, p) == At(t0, src) && ParentsOk(t0, f, p)
  }

  ghost predicate Sound(w: World, a: Action) {
    match a
    case CreateDirLocal(p) => DirsOk(w.l0, w.fl, p)
    case CreateDirRemote(p) => DirsOk(w.r0, w.fr, p)
    case UploadFile(p) => CopyOk(w.l0, w.fl, p, w.r0, w.fr, p)
    case ConflictRemote(p, c) => CopyOk(w.l0, w.fl, p, w.r0, w.fr, c)
    case DownloadFile(p) => CopyOk(w.r0, w.fr, p, w.l0, w.fl, p)
    case ConflictLocal(p, c) => CopyOk(w.r0, w.fr, p, w.l0, w.fl, c)
    case DeleteLocal(p, _) => ClearOk(w.fl, p)
    case DeleteRemote(p, _) => ClearOk(w.fr, p)
    case MoveLocal(q, p) => MoveOk(w.l0, w.fl, q, p)
    case MoveRemote(q, p) => MoveOk(w.r0, w.fr, q, p)
    case RefreshMetadata(_) => true
  }

  /** The paths an action can change at all: they are final once it has run. */
  predicate LocalTarget(a: Action, p: Path) {
    ClearsLocal(a, p) || WritesLocal(a, p) || MakesDirLocal(a, p)
  }

  predicate RemoteTarget(a: Action, p: Path) {
    ClearsRemote(a, p) || WritesRemote(a, p) || MakesDirRemote(a, p)
  }

  ghost predicate BetweenAt(t0: Tree, f: Tree, t: Tree, p: Path) {
    At(t, p) == At(t0, p) || At(t, p) == At(f, p)
  }

  /** Every path still holds what it held at first or holds its final value. */
  ghost predicate Towards(t0: Tree, f: Tree, t: Tree) {
    forall p :: BetweenAt(t0, f, t, p)
  }

  ghost predicate Between(w: World, s: Sides) {
    Towards(w.l0, w.fl, s.local) && Towards(w.r0, w.fr, s.remote)
  }

  /** A move still finds its source, or it has been carried out before. */
  ghost predicate MoveReady(t0: Tree, f: Tree, t: Tree, src: Path, p: Path) {
    At(t, src) == At(t0, src) || (At(t, src) == At(f, src) && At(t, p) == At(f, p))
  }

  ghost predicate Ready(w: World, a: Action, s: Sides) {
    && (a.MoveLocal? ==> MoveReady(w.l0, w.fl, s.local, a.src, a.path))
    && (a.MoveRemote? ==> MoveReady(w.r0, w.fr, s.remote, a.src, a.path))
  }

  // ---- one tree operation towards the final tree ------------------------------------------------

  /** r is t with some paths changed to their final values. */
  ghost predicate Advances(f: Tree, t: Tree, r: Tree) {
    forall p :: At(r, p) == At(t, p) || At(r, p) == At(f, p)
  }

  lemma NoFileInTheWay(t0: Tree, f: Tree, t: Tree, d: Path)
    requires Towards(t0, f, t) && DirOk(t0, f, d)
    ensures !IsFile(At(t, d))
  {
    assert BetweenAt(t0, f, t, d);
  }

  lemma DirsSettle(t0: Tree, f: Tree, t: Tree, p: Path)
    requires Towards(t0, f, t) && DirsOk(t0, f, p)
    ensures !FileAtOrAbove(t, p) && Advances(f, t, WithDirs(t, p))
    ensures p != [] ==> At(WithDirs(t, p), p) == At(f, p)
  {
    forall d | d != [] && Covers(d, p) ensures !IsFile(At(t, d)) && IsDir(At(f, d)) {
      assert DirOk(t0, f, d);
      NoFileInTheWay(t0, f, t, d);
    }
    if p != [] {
      assert Covers(p, p);
    }
  }

  lemma ParentsSettle(t0: Tree, f: Tree, t: Tree, p: Path)
    requires Towards(t0, f, t) && ParentsOk(t0, f, p)
    ensures MkdirAll(t, Parent(p)).FsOk? && !FileAbove(t, p)
    ensures Advances(f, t, MkdirAll(t, Parent(p)).tree)
    ensures forall q :: !Inside(p, q) ==> At(MkdirAll(t, Parent(p)).tree, q) == At(t, q)
    ensures forall d :: d != [] && Inside(p, d) ==> At(MkdirAll(t, Parent(p)).tree, d) == At(f, d)
  {
    forall d | d != [] && Covers(d, Parent(p)) ensures DirOk(t0, f, d) {
      assert Inside(p, d);
    }
    DirsSettle(t0, f, t, Parent(p));
    forall d | d != [] && Inside(p, d) ensures !IsFile(At(t, d)) {
      assert DirOk(t0, f, d);
      NoFileInTheWay(t0, f, t, d);
    }
  }

  lemma WriteSettles(t0: Tree, f: Tree, t: Tree, p: Path, body: Bytes)
    requires Towards(t0, f, t) && ParentsOk(t0, f, p)
    requires At(f, p) == Some(File(body)) && !IsDir(At(t0, p))
    ensures WriteFile(t, p, body).FsOk? && Advances(f, t, WriteFile(t, p, body).tree)
    ensures At(WriteFile(t, p, body).tree, p) == At(f, p)
  {
    ParentsSettle(t0, f, t, p);
    assert BetweenAt(t0, f, t, p);
  }

  lemma PutSettles(t0: Tree, f: Tree, t: Tree, p: Path, body: Bytes)
    requires Towards(t0, f, t) && ParentsOk(t0, f, p)
    requires At(f, p) == Some(File(body)) && !IsDir(At(t0, p))
    ensures Advances(f, t, Put(t, p, body)) && At(Put(t, p, body), p) == At(f, p)
  {
    ParentsSettle(t0, f, t, p);
    assert BetweenAt(t0, f, t, p);
  }

  lemma MoveFileSettles(t0: Tree, f: Tree, t: Tree, src: Path, p: Path)
    requires Towards(t0, f, t) && MoveOk(t0, f, src, p) && MoveReady(t0, f, t, src, p)
    ensures MoveFile(t, src, p).FsOk? <==> At(t, src) == At(t0, src)
    ensures Advances(f, t, MoveFile(t, src, p).tree)
    ensures At(MoveFile(t, src, p).tree, src) == At(f, src) && At(MoveFile(t, src, p).tree, p) == At(f, p)
    ensures forall d :: d != [] && Inside(p, d) ==> At(MoveFile(t, src, p).tree, d) == At(f, d)
  {
    ParentsSettle(t0, f, t, p);
    assert BetweenAt(t0, f, t, p);
    assert src != [] && Inside(p, src) ==> DirOk(t0, f, src);
    assert At(MkdirAll(t, Parent(p)).tree, src) == At(t, src);
  }

  lemma RemoteMoveSettles(t0: Tree, f: Tree, t: Tree, src: Path, p: Path)
    requires Towards(t0, f, t) && MoveOk(t0, f, src, p)
    requires MoveReady(t0, f, t, src, p)
    ensures Advances(f, t, RemoteMove(t, src, p))
    ensures At(RemoteMove(t, src, p), src) == At(f, src) && At(RemoteMove(t, src, p), p) == At(f, p)
  {
    ParentsSettle(t0, f, t, p);
    assert BetweenAt(t0, f, t, p);
  }

  // ---- one action ---------------------------------------------------------------------------------

  /** A sound step fails only if it is a local move that was carried out before, and even then it
      changes paths to their final values only and leaves its own targets final. */
  lemma StepSettles(w: World, a: Action, s: Sides)
    requires Sound(w, a) && Between(w, s) && Ready(w, a, s)
    ensures Apply(a, s).Done? <==> (a.MoveLocal? ==> At(s.local, a.src) == At(w.l0, a.src))
    ensures var s1 := Apply(a, s).sides;
            && Advances(w.fl, s.local, s1.local) && Advances(w.fr, s.remote, s1.remote)
            && (forall p :: LocalTarget(a, p) ==> At(s1.local, p) == At(w.fl, p))
            && (forall p :: RemoteTarget(a, p) ==> At(s1.remote, p) == At(w.fr, p))
  {
    match a
    case CreateDirLocal(p) => DirsSettle(w.l0, w.fl, s.local, p);
    case CreateDirRemote(p) => DirsSettle(w.r0, w.fr, s.remote, p); MkcolMakesDirs(s.remote, p);
    case UploadFile(p) =>
      assert BetweenAt(w.l0, w.fl, s.local, p);
      PutSettles(w.r0, w.fr, s.remote, p, s.local[p].body);
    case ConflictRemote(p, c) =>
      assert BetweenAt(w.l0, w.fl, s.local, p);
      PutSettles(w.r0, w.fr, s.remote, c, s.local[p].body);
    case DownloadFile(p) =>
      assert BetweenAt(w.r0, w.fr, s.remote, p);
      WriteSettles(w.l0, w.fl, s.local, p, s.remote[p].body);
    case ConflictLocal(p, c) =>
      assert BetweenAt(w.r0, w.fr, s.remote, p);
      WriteSettles(w.l0, w.fl, s.local, c, s.remote[p].body);
    case MoveLocal(q, p) => MoveFileSettles(w.l0, w.fl, s.local, q, p);
    case MoveRemote(q, p) => RemoteMoveSettles(w.r0, w.fr, s.remote, q, p);
    case _ =>
  }

  // ---- a whole run --------------------------------------------------------------------------------

  /** Where the order does matter: nothing removes the source of a move before the move. */
  ghost predicate MovesReady(acts: seq<Action>) {
    && (forall i, j :: 0 <= j < i < |acts| && acts[i].MoveLocal? && ClearsLocal(acts[j], acts[i].src) ==>
          OccursBy(acts, j, acts[i]))
    && (forall i, j :: 0 <= j < i < |acts| && acts[i].MoveRemote? && ClearsRemote(acts[j], acts[i].src) ==>
          OccursBy(acts, j, acts[i]))
  }

  /** A local move is not repeated, since the second one would fail. */
  ghost predicate LocalMovesOnce(acts: seq<Action>) {
    forall j, k :: 0 <= j < k < |acts| && acts[j].MoveLocal? ==> acts[j] != acts[k]
  }

  ghost predicate OccursBy(acts: seq<Action>, j: int, a: Action) {
    exists k :: 0 <= k <= j && k < |acts| && acts[k] == a
  }

  lemma PrefixReady(w: World, acts: seq<Action>, n: nat)
    requires AllSound(w, acts) && MovesReady(acts) && n <= |acts|
    ensures AllSound(w, acts[..n]) && MovesReady(acts[..n])
  {
    var before := acts[..n];
    assert forall i :: 0 <= i < n ==> before[i] == acts[i];
    forall i, j | 0 <= j < i < n && OccursBy(acts, j, acts[i]) ensures OccursBy(before, j, before[i]) {
      var k :| 0 <= k <= j && k < |acts| && acts[k] == acts[i];
      assert before[k] == before[i];
    }
  }

  ghost predicate AllSound(w: World, acts: seq<Action>) {
    forall i :: 0 <= i < |acts| ==> Sound(w, acts[i])
  }

  ghost predicate LocalReached(acts: seq<Action>, p: Path) {
    exists i :: 0 <= i < |acts| && LocalTarget(acts[i], p)
  }

  ghost predicate RemoteReached(acts: seq<Action>, p: Path) {
    exists i :: 0 <= i < |acts| && RemoteTarget(acts[i], p)
  }

  /** What holds after any prefix of the run. */
  ghost predicate Progress(w: World, acts: seq<Action>, s: Sides) {
    && Between(w, s)
    && (forall p :: LocalReached(acts, p) ==> At(s.local, p) == At(w.fl, p))
    && (forall p :: RemoteReached(acts, p) ==> At(s.remote, p) == At(w.fr, p))
    && (forall p :: p !in w.fl && (forall i :: 0 <= i < |acts| ==> !ClearsLocal(acts[i], p)) ==>
          At(s.local, p) == At(w.l0, p))
    && (forall p :: p !in w.fr && (forall i :: 0 <= i < |acts| ==> !ClearsRemote(acts[i], p)) ==>
          At(s.remote, p) == At(w.r0, p))
  }

  lemma NotClearedStays(w: World, a: Action, s: Sides, p: Path)
    requires Sound(w, a)
    ensures p !in w.fl && !ClearsLocal(a, p) ==> At(Apply(a, s).sides.local, p) == At(s.local, p)
    ensures p !in w.fr && !ClearsRemote(a, p) ==> At(Apply(a, s).sides.remote, p) == At(s.remote, p)
  {
    LocalChange(a, s, p);
    RemoteChange(a, s, p);
    assert MakesDirLocal(a, p) ==> DirOk(w.l0, w.fl, p);
    assert MakesDirRemote(a, p) ==> DirOk(w.r0, w.fr, p);
  }

  lemma {:induction false} PerformProgresses(w: World, acts: seq<Action>)
    requires AllSound(w, acts) && MovesReady(acts)
    ensures Progress(w, acts, Perform(acts, Sides(w.l0, w.r0)))
  {
    if acts != [] {
      var n := |acts| - 1;
      var before := acts[..n];
      PrefixReady(w, acts, n);
      PerformProgresses(w, before);
      var s := Perform(before, Sides(w.l0, w.r0));
      ReadyNow(w, acts, s);
      assert Sound(w, acts[n]);
      StepSettles(w, acts[n], s);
      assert acts == before + [acts[n]];
      ProgressStep(w, before, acts[n], s);
    }
  }

  lemma ReadyNow(w: World, acts: seq<Action>, s: Sides)
    requires acts != [] && AllSound(w, acts) && MovesReady(acts)
    requires Progress(w, acts[..|acts| - 1], s)
    ensures Ready(w, acts[|acts| - 1], s)
  {
    var n := |acts| - 1;
    var a, before := acts[n], acts[..n];
    assert Sound(w, a);
    if a.MoveLocal? {
      if j :| 0 <= j < n && ClearsLocal(before[j], a.src) {
        assert OccursBy(acts, j, acts[n]);
        var k :| 0 <= k <= j && k < |acts| && acts[k] == a;
        assert before[k] == a;
        assert LocalTarget(before[k], a.src) && LocalTarget(before[k], a.path);
        assert LocalReached(before, a.src) && LocalReached(before, a.path);
      }
    } else if a.MoveRemote? {
      if j :| 0 <= j < n && ClearsRemote(before[j], a.src) {
        assert OccursBy(acts, j, acts[n]);
        var k :| 0 <= k <= j && k < |acts| && acts[k] == a;
        assert before[k] == a;
        assert RemoteTarget(before[k], a.src) && RemoteTarget(before[k], a.path);
        assert RemoteReached(before, a.src) && RemoteReached(before, a.path);
      }
    }
  }

  lemma ProgressStep(w: World, before: seq<Action>, a: Action, s: Sides)
    requires AllSound(w, before + [a]) && Progress(w, before, s) && Ready(w, a, s)
    ensures Progress(w, before + [a], Apply(a, s).sides)
  {
    var acts := before + [a];
    var n := |before|;
    assert acts[n] == a && forall i :: 0 <= i < n ==> acts[i] == before[i];
    StepSettles(w, a, s);
    var s1 := Apply(a, s).sides;
    forall p ensures BetweenAt(w.l0, w.fl, s1.local, p) && BetweenAt(w.r0, w.fr, s1.remote, p) {
      assert BetweenAt(w.l0, w.fl, s.local, p) && BetweenAt(w.r0, w.fr, s.remote, p);
    }
    forall p | LocalReached(acts, p) ensures At(s1.local, p) == At(w.fl, p) {
      if !LocalTarget(a, p) {
        var i :| 0 <= i < |acts| && LocalTarget(acts[i], p);
        assert LocalTarget(before[i], p);
      }
    }
    forall p | RemoteReached(acts, p) ensures At(s1.remote, p) == At(w.fr, p) {
      if !RemoteTarget(a, p) {
        var i :| 0 <= i < |acts| && RemoteTarget(acts[i], p);
        assert RemoteTarget(before[i], p);
      }
    }
    forall p | p !in w.fl && forall i :: 0 <= i < |acts| ==> !ClearsLocal(acts[i], p)
      ensures At(s1.local, p) == At(w.l0, p)
    {
      assert !ClearsLocal(acts[n], p);
      assert forall i :: 0 <= i < n ==> !ClearsLocal(before[i], p) by {
        assert forall i :: 0 <= i < n ==> !ClearsLocal(acts[i], p);
      }
      NotClearedStays(w, a, s, p);
    }
    forall p | p !in w.fr && forall i :: 0 <= i < |acts| ==> !ClearsRemote(acts[i], p)
      ensures At(s1.remote, p) == At(w.r0, p)
    {
      assert !ClearsRemote(acts[n], p);
      assert forall i :: 0 <= i < n ==> !ClearsRemote(before[i], p) by {
        assert forall i :: 0 <= i < n ==> !ClearsRemote(acts[i], p);
      }
      NotClearedStays(w, a, s, p);
    }
  }

  ghost predicate Reaches(w: World, acts: seq<Action>) {
    && (forall p :: At(w.l0, p) != At(w.fl, p) ==> LocalReached(acts, p))
    && (forall p :: At(w.r0, p) != At(w.fr, p) ==> RemoteReached(acts, p))
  }

  /** Every occurrence of an action takes effect, of a local move the first. */
  lemma OccurrenceTakesEffect(w: World, acts: seq<Action>, k: nat)
    requires AllSound(w, acts) && MovesReady(acts) && k < |acts|
    requires acts[k].MoveLocal? ==> forall j :: 0 <= j < k ==> acts[j] != acts[k]
    ensures TakesEffect(acts, Sides(w.l0, w.r0), k)
  {
    assert acts[..k + 1] == acts[..k] + [acts[k]];
    PrefixReady(w, acts, k + 1);
    if acts[k].MoveLocal? {
      NotBefore(acts, k);
    }
    NextTakesEffect(w, acts[..k], acts[k]);
  }

  lemma NotBefore(acts: seq<Action>, k: nat)
    requires k < |acts| && forall j :: 0 <= j < k ==> acts[j] != acts[k]
    ensures acts[k] !in acts[..k]
  {
  }

  lemma NextTakesEffect(w: World, before: seq<Action>, a: Action)
    requires AllSound(w, before + [a]) && MovesReady(before + [a]) && (a.MoveLocal? ==> a !in before)
    ensures Apply(a, Perform(before, Sides(w.l0, w.r0))).Done?
  {
    var acts, n := before + [a], |before|;
    var s := Perform(before, Sides(w.l0, w.r0));
    assert acts[..n] == before && acts[n] == a;
    PrefixReady(w, acts, n);
    PerformProgresses(w, before);
    ReadyNow(w, acts, s);
    assert Sound(w, a) by { assert Sound(w, acts[n]); }
    if a.MoveLocal? {
      SourceUntouched(before, a);
    }
    StepSettles(w, a, s);
  }

  lemma SourceUntouched(before: seq<Action>, a: Action)
    requires MovesReady(before + [a]) && a.MoveLocal? && a !in before
    ensures forall j :: 0 <= j < |before| ==> !ClearsLocal(before[j], a.src)
  {
    var acts, n := before + [a], |before|;
    forall j | 0 <= j < n ensures !ClearsLocal(before[j], a.src) {
      assert acts[j] == before[j] && acts[n] == a;
      assert ClearsLocal(acts[j], acts[n].src) ==> OccursBy(acts, j, acts[n]);
      assert forall m :: 0 <= m <= j ==> acts[m] == before[m];
    }
  }

  lemma {:induction false} FirstOccurrence(acts: seq<Action>, a: Action) returns (k: nat)
    requires a in acts
    ensures k < |acts| && acts[k] == a && forall j :: 0 <= j < k ==> acts[j] != a
  {
    var n := |acts| - 1;
    assert acts == acts[..n] + [acts[n]];
    if a in acts[..n] {
      k := FirstOccurrence(acts[..n], a);
      assert forall j :: 0 <= j < k ==> acts[j] == acts[..n][j];
    } else {
      k := n;
      assert forall j :: 0 <= j < n ==> acts[j] == acts[..n][j] && acts[j] in acts[..n];
    }
  }

  /** Sound actions that reach every changed path end in the final trees, in whatever order, even if
      no failure stops the rest. */
  lemma PerformSettles(w: World, acts: seq<Action>)
    requires AllSound(w, acts) && MovesReady(acts) && Reaches(w, acts)
    ensures Perform(acts, Sides(w.l0, w.r0)) == Sides(w.fl, w.fr)
  {
    PerformProgresses(w, acts);
    var s := Perform(acts, Sides(w.l0, w.r0));
    forall p ensures At(s.local, p) == At(w.fl, p) {
      assert BetweenAt(w.l0, w.fl, s.local, p);
    }
    forall p ensures At(s.remote, p) == At(w.fr, p) {
      assert BetweenAt(w.r0, w.fr, s.remote, p);
    }
    SameTree(s.local, w.fl);
    SameTree(s.remote, w.fr);
  }

  /** The same for a run, which a failure does stop: it succeeds if no local move is repeated. */
  lemma RunSettles(w: World, acts: seq<Action>)
    requires AllSound(w, acts) && MovesReady(acts) && Reaches(w, acts) && LocalMovesOnce(acts)
    ensures Run(acts, Sides(w.l0, w.r0)) == Done(Sides(w.fl, w.fr))
  {
    forall k | 0 <= k < |acts| ensures TakesEffect(acts, Sides(w.l0, w.r0), k) {
      OccurrenceTakesEffect(w, acts, k);
    }
    RunIsPerform(acts, Sides(w.l0, w.r0));
    PerformSettles(w, acts);
  }

  // ---- what a list of actions leaves alone, sound or not ------------------------------------------

  /** An entry that nothing clears is still there, and one that nothing overwrites is unchanged. */
  lemma {:induction false} LocalKept(acts: seq<Action>, s: Sides, p: Path)
    requires p in s.local && forall a :: a in acts ==> !ClearsLocal(a, p)
    ensures p in Perform(acts, s).local
    ensures (IsDir(At(s.local, p)) || forall a :: a in acts ==> !WritesLocal(a, p)) ==>
              At(Perform(acts, s).local, p) == At(s.local, p)
  {
    if acts != [] {
      var n := |acts| - 1;
      LocalKept(acts[..n], s, p);
      LocalChange(acts[n], Perform(acts[..n], s), p);
      assert acts[n] in acts;
    }
  }

  lemma {:induction false} RemoteKept(acts: seq<Action>, s: Sides, p: Path)
    requires p in s.remote && forall a :: a in acts ==> !ClearsRemote(a, p)
    ensures p in Perform(acts, s).remote
    ensures (IsDir(At(s.remote, p)) || forall a :: a in acts ==> !WritesRemote(a, p)) ==>
              At(Perform(acts, s).remote, p) == At(s.remote, p)
  {
    if acts != [] {
      var n := |acts| - 1;
      RemoteKept(acts[..n], s, p);
      RemoteChange(acts[n], Perform(acts[..n], s), p);
      assert acts[n] in acts;
    }
  }

  /** What some action brings to the local side and none clears is there at the end. */
  lemma {:induction false} BroughtStays(acts: seq<Action>, s: Sides, k: nat, p: Path)
    requires k < |acts| && TakesEffect(acts, s, k)
    requires p != [] && (WritesLocal(acts[k], p) || MakesDirLocal(acts[k], p))
    requires forall b :: b in acts ==> !ClearsLocal(b, p)
    ensures p in Perform(acts, s).local
  {
    var n := |acts| - 1;
    assert !ClearsLocal(acts[n], p);
    if k == n {
      BringsLocal(acts[n], Perform(acts[..n], s), p);
    } else {
      TakesEffectEarlier(acts, s, k);
      BroughtStays(acts[..n], s, k, p);
      StaysLocal(acts[n], Perform(acts[..n], s), p);
    }
  }

  lemma TakesEffectEarlier(acts: seq<Action>, s: Sides, k: nat)
    requires k < |acts| - 1 && TakesEffect(acts, s, k)
    ensures acts[..|acts| - 1][k] == acts[k] && TakesEffect(acts[..|acts| - 1], s, k)
  {
    assert acts[..|acts| - 1][..k] == acts[..k];
  }

  lemma StaysLocal(a: Action, s: Sides, p: Path)
    requires p in s.local && !ClearsLocal(a, p)
    ensures p in Apply(a, s).sides.local
  {
    LocalChange(a, s, p);
  }

  lemma BringsLocal(a: Action, s: Sides, p: Path)
    requires Apply(a, s).Done? && p != [] && (WritesLocal(a, p) || MakesDirLocal(a, p))
    ensures p in Apply(a, s).sides.local
  {
    match a
    case DownloadFile(q) => WriteBrings(s.local, q, s.remote[q].body, p);
    case ConflictLocal(q, c) => WriteBrings(s.local, c, s.remote[q].body, p);
    case MoveLocal(q, c) =>
      MoveFileAt(s.local, q, c, p);
      assert Inside(c, p) ==> Covers(p, Parent(c));
    case CreateDirLocal(_) =>
    case _ =>
  }

  lemma WriteBrings(t: Tree, q: Path, body: Bytes, p: Path)
    requires WriteFile(t, q, body).FsOk? && p != [] && (p == q || Inside(q, p))
    ensures p in WriteFile(t, q, body).tree
  {
    WriteFileAt(t, q, body, p);
    assert Inside(q, p) ==> Covers(p, Parent(q));
  }

  /** What some action deletes on the remote and none puts there is absent at the end. */
  lemma {:induction false} ClearedStays(acts: seq<Action>, s: Sides, a: Action, p: Path)
    requires a in acts && a.DeleteRemote? && Covers(a.path, p)
    requires forall b :: b in acts ==> !WritesRemote(b, p) && !MakesDirRemote(b, p)
    ensures p !in Perform(acts, s).remote
  {
    var n := |acts| - 1;
    assert acts[n] in acts;
    if acts[n] != a {
      ClearedStays(acts[..n], s, a, p);
      NotBroughtRemote(acts[n], Perform(acts[..n], s), p);
    }
  }

  lemma NotBroughtRemote(a: Action, s: Sides, p: Path)
    requires !WritesRemote(a, p) && !MakesDirRemote(a, p) && p !in s.remote
    ensures p !in Apply(a, s).sides.remote
  {
    if a.CreateDirRemote? {
      MkcolKeeps(s.remote, a.path, |a.path|, p);
    }
  }

  /** The action puts nothing at the move's two ends, unless it is the move itself. */
  predicate LeavesEnds(a: Action, m: Action)
    requires m.MoveRemote?
  {
    && !MakesDirRemote(a, m.path) && (a == m || !WritesRemote(a, m.path))
    && !MakesDirRemote(a, m.src) && !WritesRemote(a, m.src)
  }

  /** A remote move that first comes after a delete of its source puts nothing in its new place. */
  lemma {:induction false} LateMoveIsLost(acts: seq<Action>, s: Sides, j: nat, m: Action)
    requires m.MoveRemote? && m.path !in s.remote && m.path != m.src
    requires j < |acts| ==> acts[j].DeleteRemote? && Covers(acts[j].path, m.src)
    requires forall k :: 0 <= k <= j && k < |acts| ==> acts[k] != m
    requires forall k :: 0 <= k < |acts| ==> LeavesEnds(acts[k], m)
    ensures m.path !in Perform(acts, s).remote
    ensures j < |acts| ==> m.src !in Perform(acts, s).remote
  {
    if acts != [] {
      var n := |acts| - 1;
      var before := acts[..n];
      forall k | 0 <= k < n ensures before[k] == acts[k] && LeavesEnds(before[k], m) {
        assert LeavesEnds(acts[k], m);
      }
      LateMoveIsLost(before, s, j, m);
      assert LeavesEnds(acts[n], m);
      LateMoveStep(acts[n], Perform(before, s), m);
    }
  }

  lemma LateMoveStep(a: Action, s: Sides, m: Action)
    requires m.MoveRemote? && m.path != m.src && m.path !in s.remote && LeavesEnds(a, m)
    ensures m.src !in s.remote ==> m.src !in Apply(a, s).sides.remote && m.path !in Apply(a, s).sides.remote
    ensures a != m ==> m.path !in Apply(a, s).sides.remote
    ensures a.DeleteRemote? && Covers(a.path, m.src) ==> m.src !in Apply(a, s).sides.remote
  {
    if a != m {
      NotBroughtRemote(a, s, m.path);
    }
    if m.src !in s.remote {
      NotBroughtRemote(a, s, m.src);
    }
  }
}
