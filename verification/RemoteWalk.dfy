/** The recursive remote listing that a remote snapshot is made of. */
module RemoteWalk {
  import opened Trees
  import opened PathText

  datatype RemoteEntry = RemoteEntry(path: string, isDir: bool)

  /** What a listing request for each location answers: the entries one level below it. */
  type Listings = map<string, seq<RemoteEntry>>

  function Location(root: string, p: Path): string {
    if p == [] then root else JoinRemotePath(root, Join(p))
  }

  function EntryAt(root: string, t: Tree, p: Path): RemoteEntry
    requires p in t
  {
    RemoteEntry(Location(root, p), t[p].Dir?)
  }

  predicate ChildOf(p: Path, c: Path) {
    c != [] && c[..|c| - 1] == p
  }

  /** The entries are those of p's children, in some order. */
  ghost predicate ListsChildren(entries: seq<RemoteEntry>, root: string, t: Tree, p: Path) {
    && (forall e :: e in entries ==> exists c :: c in t && ChildOf(p, c) && e == EntryAt(root, t, c))
    && (forall c :: c in t && ChildOf(p, c) ==> EntryAt(root, t, c) in entries)
  }

  /** The server holds the tree t below root. Directories are listed without a trailing slash. */
  ghost predicate Serves(listings: Listings, root: string, t: Tree) {
    && PrefixClosed(t) && RootOk(root) && (forall p :: p in t ==> NamesOk(p))
    && forall p :: p == [] || IsDir(At(t, p)) ==>
         Location(root, p) in listings && ListsChildren(listings[Location(root, p)], root, t, p)
  }

  type Items = map<string, RemoteEntry>

  /** Every key is the relative text of a path of the tree, with that path's entry. */
  ghost predicate Genuine(root: string, t: Tree, items: Items) {
    forall k :: k in items ==> GenuineKey(root, t, items, k)
  }

  ghost predicate GenuineKey(root: string, t: Tree, items: Items, k: string)
    requires k in items
  {
    exists q :: q in t && k == Join(q) && items[k] == EntryAt(root, t, q)
  }

  predicate Has(items: Items, q: Path) {
    Join(q) in items
  }

  ghost predicate HasBelow(t: Tree, items: Items, p: Path) {
    forall q :: q in t && Inside(q, p) ==> Has(items, q)
  }

  lemma EntryKey(root: string, t: Tree, q: Path)
    requires q in t && q != [] && NamesOk(q) && RootOk(root)
    ensures Relative(root, EntryAt(root, t, q).path) == Join(q) && Join(q) != ""
  {
    JoinNotEmpty(q);
    RelativeUndoesJoin(root, Join(q));
  }

  lemma EntryDeterminesPath(root: string, t: Tree, c: Path, d: Path)
    requires c in t && d in t && c != [] && d != [] && NamesOk(c) && NamesOk(d) && RootOk(root)
    requires EntryAt(root, t, c) == EntryAt(root, t, d)
    ensures c == d
  {
    EntryKey(root, t, c);
    EntryKey(root, t, d);
    JoinInjective(c, d);
  }

  /** A strict descendant of p is one of p's children or lies below one, which is a directory. */
  lemma ThroughChild(t: Tree, p: Path, q: Path) returns (c: Path)
    requires PrefixClosed(t) && q in t && Inside(q, p)
    ensures c in t && ChildOf(p, c) && Covers(c, q) && (c != q ==> Inside(q, c) && t[c].Dir?)
  {
    c := q[..|p| + 1];
    assert c[..|p|] == p;
    if c == q {
    } else {
      assert Inside(q, c) && c != [];
      assert IsDir(At(t, c));
    }
  }

  /** The children whose entries have been seen are in, with all that lies below them. */
  ghost predicate TakenUp(root: string, t: Tree, p: Path, seen: seq<RemoteEntry>, items: Items) {
    forall c :: c in t && ChildOf(p, c) && EntryAt(root, t, c) in seen ==> Has(items, c) && HasBelow(t, items, c)
  }

  lemma GenuineGrows(root: string, t: Tree, items: Items, c: Path)
    requires Genuine(root, t, items) && c in t
    ensures Genuine(root, t, items[Join(c) := EntryAt(root, t, c)])
  {
    var more := items[Join(c) := EntryAt(root, t, c)];
    forall x | x in more ensures GenuineKey(root, t, more, x) {
      if x != Join(c) { assert GenuineKey(root, t, items, x); }
    }
  }

  lemma ChildTaken(root: string, t: Tree, p: Path, entries: seq<RemoteEntry>, k: nat, c: Path, before: Items,
                   after: Items)
    requires k < |entries| && c in t && ChildOf(p, c) && entries[k] == EntryAt(root, t, c)
    requires RootOk(root) && forall q :: q in t ==> NamesOk(q)
    requires TakenUp(root, t, p, entries[..k], before) && (forall x :: x in before ==> x in after)
    requires Has(after, c) && HasBelow(t, after, c)
    ensures TakenUp(root, t, p, entries[..k + 1], after)
  {
    forall d | d in t && ChildOf(p, d) && EntryAt(root, t, d) in entries[..k + 1]
      ensures Has(after, d) && HasBelow(t, after, d)
    {
      if EntryAt(root, t, d) == entries[k] {
        EntryDeterminesPath(root, t, c, d);
      } else {
        assert EntryAt(root, t, d) in entries[..k];
        assert Has(before, d) && HasBelow(t, before, d);
      }
    }
  }

  /** The recursive walk. It fails only if a location cannot be listed, which does not happen for a
      served tree, and it terminates because the served paths are bounded in length. */
  method WalkRemote(listings: Listings, root: string, current: string, items: Items, ghost t: Tree, ghost p: Path,
                    ghost depth: nat)
    returns (ok: bool, r: Items)
    requires Serves(listings, root, t) && current == Location(root, p) && (p == [] || IsDir(At(t, p)))
    requires forall q :: q in t ==> |q| <= depth
    requires Genuine(root, t, items)
    ensures ok && Genuine(root, t, r) && HasBelow(t, r, p)
    ensures forall k :: k in items ==> k in r
    decreases depth + 1 - |p|
  {
    r := items;
    if current !in listings {
      return false, r;
    }
    var entries := listings[current];
    var k := 0;
    while k < |entries|
      invariant 0 <= k <= |entries|
      invariant Genuine(root, t, r)
      invariant forall x :: x in items ==> x in r
      invariant TakenUp(root, t, p, entries[..k], r)
    {
      var entry := entries[k];
      assert entry in entries;
      ghost var c :| c in t && ChildOf(p, c) && entry == EntryAt(root, t, c);
      EntryKey(root, t, c);
      var rel := Relative(root, entry.path);
      if rel != "" {
        ghost var before := r;
        r := r[rel := entry];
        GenuineGrows(root, t, before, c);
        if entry.isDir {
          ok, r := WalkRemote(listings, root, entry.path, r, t, c, depth);
          if !ok {
            return;
          }
        } else {
          NothingBelowFile(t, c);
        }
        ChildTaken(root, t, p, entries, k, c, before, r);
      }
      k := k + 1;
    }
    ok := true;
    assert entries[..k] == entries;
    forall q | q in t && Inside(q, p) ensures Has(r, q) {
      var c := ThroughChild(t, p, q);
    }
  }

  lemma NothingBelowFile(t: Tree, c: Path)
    requires PrefixClosed(t) && c in t && t[c].File?
    ensures forall q :: q in t ==> !Inside(q, c)
  {
  }

  /** The snapshot holds exactly the served tree: one entry per path, under the path's own text. */
  method SnapshotRemote(listings: Listings, root: string, ghost t: Tree, ghost depth: nat)
    returns (ok: bool, items: Items)
    requires Serves(listings, root, t) && forall q :: q in t ==> |q| <= depth
    ensures ok
    ensures forall q :: q in t ==> Join(q) in items && items[Join(q)] == EntryAt(root, t, q)
    ensures forall k :: k in items ==> exists q :: q in t && k == Join(q)
  {
    ok, items := WalkRemote(listings, root, root, map[], t, [], depth);
    forall q | q in t ensures Join(q) in items && items[Join(q)] == EntryAt(root, t, q) {
      assert Inside(q, []);
      assert Has(items, q);
      assert GenuineKey(root, t, items, Join(q));
      var q' :| q' in t && Join(q) == Join(q') && items[Join(q)] == EntryAt(root, t, q');
      JoinInjective(q, q');
    }
    assert forall k :: k in items ==> GenuineKey(root, t, items, k);
  }
}
