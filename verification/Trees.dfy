/** The two file trees that a sync task keeps in step, and the operations the runner performs on
    them. Paths are relative to the task's root and are split into names; the root itself is the
    empty path, always exists, and is never an entry of a tree. */
module Trees {
  type Name = string
  type Path = seq<Name>
  type Bytes = seq<bv8>

  datatype Option<+T> = None | Some(value: T)

  datatype Node = Dir | File(body: Bytes)

  type Tree = map<Path, Node>

  /** What a tree holds at a path, if anything. */
  function At(t: Tree, p: Path): Option<Node> {
    if p in t then Some(t[p]) else None
  }

  /** p is d itself or lies below d. */
  predicate Covers(d: Path, p: Path) {
    d <= p
  }

  /** p lies strictly below d. */
  predicate Inside(p: Path, d: Path) {
    Covers(d, p) && d != p
  }

  predicate IsFile(n: Option<Node>) {
    n.Some? && n.value.File?
  }

  predicate IsDir(n: Option<Node>) {
    n == Some(Dir)
  }

  /** Every entry has all its parent directories: what a snapshot of a real tree looks like. */
  ghost predicate PrefixClosed(t: Tree) {
    && [] !in t
    && forall p, d :: p in t && d != [] && Inside(p, d) ==> IsDir(At(t, d))
  }

  function Parent(p: Path): (r: Path)
    requires p != []
    ensures forall d :: Covers(d, r) <==> Inside(p, d)
  {
    p[..|p| - 1]
  }

  /** All non-empty prefixes of a path, the path included. */
  function Prefixes(p: Path): (r: set<Path>)
    ensures forall d :: d in r <==> d != [] && Covers(d, p)
  {
    var r := set k | 1 <= k <= |p| :: p[..k];
    assert forall d :: d != [] && Covers(d, p) ==> d in r by {
      forall d | d != [] && Covers(d, p) ensures d in r {
        assert 1 <= |d| <= |p| && d == p[..|d|];
      }
    }
    r
  }

  /** The part of t that is not at or below d. */
  function Without(t: Tree, d: Path): (r: Tree)
    ensures forall q :: At(r, q) == if Covers(d, q) then None else At(t, q)
  {
    map q | q in t && !Covers(d, q) :: t[q]
  }

  /** t with a directory put wherever p or one of its parents is missing. */
  function WithDirs(t: Tree, p: Path): (r: Tree)
    ensures forall q :: At(r, q) == if q !in t && q != [] && Covers(q, p) then Some(Dir) else At(t, q)
  {
    t + map d | d in Prefixes(p) && d !in t :: Dir
  }

  predicate FileAtOrAbove(t: Tree, p: Path) {
    exists d :: d in t && d != [] && Covers(d, p) && t[d].File?
  }

  predicate FileAbove(t: Tree, p: Path) {
    exists d :: d in t && d != [] && Inside(p, d) && t[d].File?
  }

  // ---- the local file system -------------------------------------------------------------

  datatype FsResult = FsOk(tree: Tree) | FsErr(tree: Tree)

  function MkdirAll(t: Tree, p: Path): FsResult {
    if FileAtOrAbove(t, p) then FsErr(t) else FsOk(WithDirs(t, p))
  }

  /** The local half of a download: make the parent directories, then create or truncate the file. */
  function WriteFile(t: Tree, p: Path, body: Bytes): FsResult {
    if p == [] then FsErr(t) else
      match MkdirAll(t, Parent(p))
      case FsErr(t1) => FsErr(t1)
      case FsOk(t1) => if IsDir(At(t1, p)) then FsErr(t1) else FsOk(t1[p := File(body)])
  }

  /** A local move: make the parents of the new name, then rename. Renaming a directory is not
      modelled and reads as an error; no plan asks for it. */
  function MoveFile(t: Tree, src: Path, p: Path): FsResult {
    if p == [] then FsErr(t) else
      match MkdirAll(t, Parent(p))
      case FsErr(t1) => FsErr(t1)
      case FsOk(t1) =>
        if !IsFile(At(t1, src)) || IsDir(At(t1, p)) then FsErr(t1)
        else FsOk((t1 - {src})[p := t1[src]])
  }

  // ---- the remote: every request is accepted, a request the server refuses changes nothing -----

  /** MKCOL of the first k segments of p in turn. An existing entry is left alone, and a segment
      whose parent is not a collection is refused. */
  function Mkcol(t: Tree, p: Path, k: nat): Tree
    requires k <= |p|
  {
    if k == 0 then t else
      var t1 := Mkcol(t, p, k - 1);
      if p[..k] in t1 || (k > 1 && !IsDir(At(t1, p[..k - 1]))) then t1 else t1[p[..k] := Dir]
  }

  predicate PutRefused(t: Tree, p: Path) {
    p == [] || IsDir(At(t, p)) || FileAbove(t, p)
  }

  function Put(t: Tree, p: Path, body: Bytes): Tree {
    if PutRefused(t, p) then t else t[p := File(body)]
  }

  /** MOVE of a file. A missing source is a 404 that the client does not look at. */
  function RemoteMove(t: Tree, src: Path, p: Path): Tree {
    if !IsFile(At(t, src)) || PutRefused(t, p) then t else (t - {src})[p := t[src]]
  }

  lemma {:induction false} MkcolKeeps(t: Tree, p: Path, k: nat, q: Path)
    requires k <= |p|
    ensures q in t ==> At(Mkcol(t, p, k), q) == At(t, q)
    ensures At(Mkcol(t, p, k), q) != At(t, q) ==>
              q != [] && |q| <= k && Covers(q, p) && At(Mkcol(t, p, k), q) == Some(Dir)
  {
    if k > 0 {
      MkcolKeeps(t, p, k - 1, q);
    }
  }

  // Where no file is in the way, MKCOL creates exactly the missing directories.
  lemma {:induction false} MkcolAt(t: Tree, p: Path, k: nat, q: Path)
    requires k <= |p|
    requires !FileAtOrAbove(t, p)
    ensures At(Mkcol(t, p, k), q) ==
            if q !in t && q != [] && |q| <= k && Covers(q, p) then Some(Dir) else At(t, q)
  {
    if k > 0 {
      MkcolAt(t, p, k - 1, q);
      assert Covers(p[..k], p);
      if Covers(q, p) && |q| == k {
        assert q == p[..k];
      }
      if k > 1 {
        var parent := p[..k - 1];
        assert Covers(parent, p);
        MkcolAt(t, p, k - 1, parent);
      }
    }
  }

  lemma MkcolMakesDirs(t: Tree, p: Path)
    requires !FileAtOrAbove(t, p)
    ensures Mkcol(t, p, |p|) == WithDirs(t, p)
  {
    forall q ensures At(Mkcol(t, p, |p|), q) == At(WithDirs(t, p), q) {
      MkcolAt(t, p, |p|, q);
    }
    SameTree(Mkcol(t, p, |p|), WithDirs(t, p));
  }

  lemma {:induction false} MkcolTwice(t: Tree, p: Path, k: nat, n: nat)
    requires k <= n <= |p|
    ensures Mkcol(Mkcol(t, p, n), p, k) == Mkcol(t, p, n)
  {
    if k > 0 {
      MkcolTwice(t, p, k - 1, n);
      MkcolStepSettled(t, p, k, n);
    }
  }

  // After n >= k segments, segment k is either there or still refused.
  lemma {:induction false} MkcolStepSettled(t: Tree, p: Path, k: nat, n: nat)
    requires 1 <= k <= n <= |p|
    ensures var r := Mkcol(t, p, n); p[..k] in r || (k > 1 && !IsDir(At(r, p[..k - 1])))
  {
    if k < n {
      MkcolStepSettled(t, p, k, n - 1);
    }
  }

  lemma SameTree(a: Tree, b: Tree)
    requires forall q :: At(a, q) == At(b, q)
    ensures a == b
  {
    forall q ensures q in a <==> q in b {
      assert At(a, q) == At(b, q);
    }
    forall q | q in a ensures a[q] == b[q] {
      assert At(a, q) == At(b, q);
    }
  }
}
