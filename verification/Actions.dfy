/** Sync actions and what executing them does to the two sides. */
module Actions {
  import opened Trees

  /** One planned step. The absolute local and remote locations of an action are the task's two
      roots joined with the relative paths kept here; copy is the conflict copy's path. */
  datatype Action =
    | CreateDirLocal(path: Path)
    | CreateDirRemote(path: Path)
    | UploadFile(path: Path)
    | DownloadFile(path: Path)
    | DeleteLocal(path: Path, isDir: bool)
    | DeleteRemote(path: Path, isDir: bool)
    | MoveLocal(src: Path, path: Path)
    | MoveRemote(src: Path, path: Path)
    | ConflictLocal(path: Path, copy: Path)   // MoveConflictLocal: download the remote version
    | ConflictRemote(path: Path, copy: Path)  // MoveConflictRemote: upload the local version
    | RefreshMetadata(path: Path)
  {
    predicate IsMove() { MoveLocal? || MoveRemote? }
    predicate IsDelete() { DeleteLocal? || DeleteRemote? }
  }

  datatype Sides = Sides(local: Tree, remote: Tree)

  datatype Outcome = Done(sides: Sides) | Failed(sides: Sides)

  function OnLocal(s: Sides, r: FsResult): Outcome {
    match r
    case FsOk(t) => Done(s.(local := t))
    case FsErr(t) => Failed(s.(local := t))
  }

  function Upload(s: Sides, from: Path, to: Path): Outcome {
    if !IsFile(At(s.local, from)) then Failed(s)
    else Done(s.(remote := Put(s.remote, to, s.local[from].body)))
  }

  function Download(s: Sides, from: Path, to: Path): Outcome {
    if !IsFile(At(s.remote, from)) then Failed(s)
    else OnLocal(s, WriteFile(s.local, to, s.remote[from].body))
  }

  /** One case of the executor. A failure may leave parent directories behind. */
  function Apply(a: Action, s: Sides): Outcome {
    match a
    case CreateDirLocal(p) => OnLocal(s, MkdirAll(s.local, p))
    case CreateDirRemote(p) => Done(s.(remote := Mkcol(s.remote, p, |p|)))
    case UploadFile(p) => Upload(s, p, p)
    case ConflictRemote(p, c) => Upload(s, p, c)
    case DownloadFile(p) => Download(s, p, p)
    case ConflictLocal(p, c) => Download(s, p, c)
    case DeleteLocal(p, _) => Done(s.(local := Without(s.local, p)))
    case DeleteRemote(p, _) => Done(s.(remote := Without(s.remote, p)))
    case MoveLocal(q, p) => OnLocal(s, MoveFile(s.local, q, p))
    case MoveRemote(q, p) => Done(s.(remote := RemoteMove(s.remote, q, p)))
    case RefreshMetadata(_) => Done(s)
  }

  /** Executing a list of actions in order, stopping at the first failure. */
  function Run(acts: seq<Action>, s: Sides): Outcome {
    if acts == [] then Done(s) else
      match Run(acts[..|acts| - 1], s)
      case Failed(s1) => Failed(s1)
      case Done(s1) => Apply(acts[|acts| - 1], s1)
  }

  lemma RunSnoc(acts: seq<Action>, a: Action, s: Sides)
    ensures Run(acts + [a], s) ==
            match Run(acts, s)
            case Failed(s1) => Failed(s1)
            case Done(s1) => Apply(a, s1)
  {
    assert (acts + [a])[..|acts|] == acts;
  }

  lemma {:induction false} RunFailedStays(acts: seq<Action>, k: nat, s: Sides)
    requires k <= |acts|
    requires Run(acts[..k], s).Failed?
    ensures Run(acts, s) == Run(acts[..k], s)
  {
    if k < |acts| {
      assert acts[..|acts| - 1][..k] == acts[..k];
      RunFailedStays(acts[..|acts| - 1], k, s);
    } else {
      assert acts[..k] == acts;
    }
  }

  lemma {:induction false} RunCons(a: Action, rest: seq<Action>, s: Sides)
    ensures Run([a] + rest, s) ==
            match Apply(a, s)
            case Failed(s1) => Failed(s1)
            case Done(s1) => Run(rest, s1)
  {
    if rest == [] {
      RunSnoc([], a, s);
      assert [] + [a] == [a] + [];
    } else {
      var n := |rest| - 1;
      RunCons(a, rest[..n], s);
      RunSnoc([a] + rest[..n], rest[n], s);
      assert [a] + rest == ([a] + rest[..n]) + [rest[n]];
    }
  }

  // ---- performing actions whatever fails ----------------------------------------------------------

  /** What a list of actions does to the sides when a failure does not stop the rest. */
  function Perform(acts: seq<Action>, s: Sides): Sides {
    if acts == [] then s else Apply(acts[|acts| - 1], Perform(acts[..|acts| - 1], s)).sides
  }

  /** Action k of the list succeeds where it stands. */
  predicate TakesEffect(acts: seq<Action>, s: Sides, k: nat)
    requires k < |acts|
  {
    Apply(acts[k], Perform(acts[..k], s)).Done?
  }

  /** A run succeeds exactly if every action takes effect, and then it has done just that. */
  lemma {:induction false} RunIsPerform(acts: seq<Action>, s: Sides)
    ensures Run(acts, s).Done? <==> forall k :: 0 <= k < |acts| ==> TakesEffect(acts, s, k)
    ensures Run(acts, s).Done? ==> Run(acts, s).sides == Perform(acts, s)
  {
    if acts != [] {
      var n := |acts| - 1;
      RunIsPerform(acts[..n], s);
      assert forall k :: 0 <= k < n ==> acts[..n][..k] == acts[..k];
      assert forall k :: 0 <= k < n ==> (TakesEffect(acts[..n], s, k) <==> TakesEffect(acts, s, k));
      assert TakesEffect(acts, s, n) <==> Apply(acts[n], Perform(acts[..n], s)).Done?;
    }
  }

  // ---- which paths an action can disturb --------------------------------------------------------

  /** The action may remove the local entry at p. */
  predicate ClearsLocal(a: Action, p: Path) {
    match a
    case DeleteLocal(d, _) => Covers(d, p)
    case MoveLocal(q, _) => q == p
    case _ => false
  }

  predicate ClearsRemote(a: Action, p: Path) {
    match a
    case DeleteRemote(d, _) => Covers(d, p)
    case MoveRemote(q, _) => q == p
    case _ => false
  }

  /** The action may put a file at p. */
  predicate WritesLocal(a: Action, p: Path) {
    match a
    case DownloadFile(q) => q == p
    case ConflictLocal(_, c) => c == p
    case MoveLocal(_, q) => q == p
    case _ => false
  }

  predicate WritesRemote(a: Action, p: Path) {
    match a
    case UploadFile(q) => q == p
    case ConflictRemote(_, c) => c == p
    case MoveRemote(_, q) => q == p
    case _ => false
  }

  /** The action may put a directory at p. */
  predicate MakesDirLocal(a: Action, p: Path) {
    p != [] &&
    match a
    case CreateDirLocal(q) => Covers(p, q)
    case DownloadFile(q) => Inside(q, p)
    case ConflictLocal(_, c) => Inside(c, p)
    case MoveLocal(_, q) => Inside(q, p)
    case _ => false
  }

  predicate MakesDirRemote(a: Action, p: Path) {
    p != [] && a.CreateDirRemote? && Covers(p, a.path)
  }

  lemma MkdirAllAt(t: Tree, p: Path, q: Path)
    ensures var r := MkdirAll(t, p).tree;
            At(r, q) == At(t, q) || (q !in t && q != [] && Covers(q, p) && At(r, q) == Some(Dir))
  {
  }

  lemma WriteFileAt(t: Tree, p: Path, body: Bytes, q: Path)
    ensures var r := WriteFile(t, p, body);
            || At(r.tree, q) == At(t, q)
            || (q !in t && q != [] && Inside(p, q) && At(r.tree, q) == Some(Dir))
            || (r.FsOk? && q == p && !IsDir(At(t, p)) && At(r.tree, q) == Some(File(body)))
    ensures var r := WriteFile(t, p, body); r.FsOk? ==> At(r.tree, p) == Some(File(body))
  {
    if p != [] {
      MkdirAllAt(t, Parent(p), q);
      MkdirAllAt(t, Parent(p), p);
    }
  }

  lemma MoveFileAt(t: Tree, src: Path, p: Path, q: Path)
    ensures var r := MoveFile(t, src, p);
            || At(r.tree, q) == At(t, q)
            || (q !in t && q != [] && Inside(p, q) && At(r.tree, q) == Some(Dir))
            || (r.FsOk? && (q == p || q == src) && !IsDir(At(t, q)) && !IsDir(At(r.tree, q)))
    ensures var r := MoveFile(t, src, p); r.FsOk? ==> p in r.tree
  {
    if p != [] {
      MkdirAllAt(t, Parent(p), q);
      MkdirAllAt(t, Parent(p), p);
      MkdirAllAt(t, Parent(p), src);
    }
  }

  /** The only ways one action changes the local entry at p: it removes it, it puts a file there, or
      it puts a directory where nothing was. A directory never becomes a file nor the reverse. */
  lemma LocalChange(a: Action, s: Sides, p: Path)
    ensures var r := Apply(a, s).sides.local;
            || At(r, p) == At(s.local, p)
            || (ClearsLocal(a, p) && (p !in r || IsFile(At(r, p))))
            || (WritesLocal(a, p) && !IsDir(At(s.local, p)) && IsFile(At(r, p)))
            || (MakesDirLocal(a, p) && p !in s.local && IsDir(At(r, p)))
    ensures a.MoveLocal? && IsDir(At(s.local, p)) ==> IsDir(At(Apply(a, s).sides.local, p))
  {
    match a
    case CreateDirLocal(q) => MkdirAllAt(s.local, q, p);
    case DownloadFile(q) => if q in s.remote && s.remote[q].File? { WriteFileAt(s.local, q, s.remote[q].body, p); }
    case ConflictLocal(q, c) => if q in s.remote && s.remote[q].File? { WriteFileAt(s.local, c, s.remote[q].body, p); }
    case MoveLocal(src, q) => MoveFileAt(s.local, src, q, p);
    case _ =>
  }

  lemma RemoteChange(a: Action, s: Sides, p: Path)
    ensures var r := Apply(a, s).sides.remote;
            || At(r, p) == At(s.remote, p)
            || (ClearsRemote(a, p) && (p !in r || IsFile(At(r, p))))
            || (WritesRemote(a, p) && !IsDir(At(s.remote, p)) && IsFile(At(r, p)))
            || (MakesDirRemote(a, p) && p !in s.remote && IsDir(At(r, p)))
    ensures a.MoveRemote? && IsDir(At(s.remote, p)) ==> IsDir(At(Apply(a, s).sides.remote, p))
  {
    if a.CreateDirRemote? {
      MkcolKeeps(s.remote, a.path, |a.path|, p);
    }
  }

  // ---- what stays well-formed ---------------------------------------------------------------------

  lemma DirsStayClosed(t: Tree, p: Path)
    requires PrefixClosed(t)
    ensures PrefixClosed(MkdirAll(t, p).tree)
  {
    var u := MkdirAll(t, p).tree;
    MkdirAllAt(t, p, []);
    forall q, d | q in u && d != [] && Inside(q, d) ensures IsDir(At(u, d)) {
      MkdirAllAt(t, p, q);
      MkdirAllAt(t, p, d);
      assert MkdirAll(t, p).FsOk? && Covers(d, p) ==> !IsFile(At(t, d));
    }
  }

  /** Putting a file, or moving one, where its parents are and no directory is keeps a tree closed. */
  lemma FilePutStaysClosed(t: Tree, p: Path, n: Node, gone: set<Path>)
    requires PrefixClosed(t) && p != [] && n.File? && !IsDir(At(t, p))
    requires forall d :: d != [] && Covers(d, Parent(p)) ==> IsDir(At(t, d))
    requires forall q :: q in gone ==> IsFile(At(t, q))
    ensures PrefixClosed((t - gone)[p := n])
  {
    var u := (t - gone)[p := n];
    forall q, d | q in u && d != [] && Inside(q, d) ensures IsDir(At(u, d)) {
      if q == p {
        assert Covers(d, Parent(p));
      }
      assert IsDir(At(t, d));
    }
  }

  /** The local side stays the snapshot of a real tree, whatever actions are performed in whatever order,
      failures included. */
  lemma {:induction false} LocalStaysClosed(acts: seq<Action>, s: Sides)
    requires PrefixClosed(s.local)
    ensures PrefixClosed(Perform(acts, s).local)
  {
    if acts != [] {
      var n := |acts| - 1;
      LocalStaysClosed(acts[..n], s);
      ApplyStaysClosed(acts[n], Perform(acts[..n], s));
    }
  }

  lemma ApplyStaysClosed(a: Action, s: Sides)
    requires PrefixClosed(s.local)
    ensures PrefixClosed(Apply(a, s).sides.local)
  {
    var t := s.local;
    match a
    case CreateDirLocal(p) => DirsStayClosed(t, p);
    case DownloadFile(p) => if IsFile(At(s.remote, p)) { WriteStaysClosed(t, p, s.remote[p].body); }
    case ConflictLocal(p, c) => if IsFile(At(s.remote, p)) { WriteStaysClosed(t, c, s.remote[p].body); }
    case MoveLocal(q, p) => MoveStaysClosed(t, q, p);
    case _ =>
  }

  lemma WriteStaysClosed(t: Tree, p: Path, body: Bytes)
    requires PrefixClosed(t)
    ensures PrefixClosed(WriteFile(t, p, body).tree)
  {
    if p != [] {
      DirsStayClosed(t, Parent(p));
      var u := MkdirAll(t, Parent(p));
      if u.FsOk? && !IsDir(At(u.tree, p)) {
        ParentsAreDirs(t, Parent(p));
        FilePutStaysClosed(u.tree, p, File(body), {});
        assert u.tree - {} == u.tree;
      }
    }
  }

  lemma MoveStaysClosed(t: Tree, src: Path, p: Path)
    requires PrefixClosed(t)
    ensures PrefixClosed(MoveFile(t, src, p).tree)
  {
    if p != [] {
      DirsStayClosed(t, Parent(p));
      var u := MkdirAll(t, Parent(p));
      if u.FsOk? && IsFile(At(u.tree, src)) && !IsDir(At(u.tree, p)) {
        ParentsAreDirs(t, Parent(p));
        FilePutStaysClosed(u.tree, p, u.tree[src], {src});
      }
    }
  }

  lemma ParentsAreDirs(t: Tree, p: Path)
    requires MkdirAll(t, p).FsOk?
    ensures forall d :: d != [] && Covers(d, p) ==> IsDir(At(MkdirAll(t, p).tree, d))
  {
    forall d | d != [] && Covers(d, p) ensures IsDir(At(MkdirAll(t, p).tree, d)) {
      assert d in t ==> !t[d].File?;
    }
  }

  /** Nothing is put below a file on the remote. */
  lemma NothingPutBelowFile(a: Action, s: Sides, p: Path, d: Path)
    requires !a.CreateDirRemote? && p !in s.remote && p in Apply(a, s).sides.remote && d != [] && Inside(p, d)
    ensures !IsFile(At(s.remote, d))
  {
  }
}
