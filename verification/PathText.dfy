/** Relative paths as text: names joined with '/'. */
module PathText {
  import opened Trees

  predicate NameOk(n: Name) {
    n != "" && '/' !in n
  }

  ghost predicate NamesOk(p: Path) {
    forall n :: n in p ==> NameOk(n)
  }

  function Join(p: Path): string {
    if p == [] then ""
    else if |p| == 1 then p[0]
    else p[0] + "/" + Join(p[1..])
  }

  predicate HasPrefix(s: string, prefix: string) {
    |prefix| <= |s| && s[..|prefix|] == prefix
  }

  lemma JoinNotEmpty(p: Path)
    requires p != [] && NamesOk(p)
    ensures Join(p) != "" && Join(p)[0] != '/'
  {
    assert p[0] in p;
    assert p[0][0] in p[0];
  }

  lemma SlashAfter(m: Name, x: string)
    requires '/' !in m
    ensures (m + "/" + x)[|m|] == '/' && forall k :: 0 <= k < |m| ==> (m + "/" + x)[k] != '/'
    ensures (m + "/" + x)[..|m|] == m && (m + "/" + x)[|m| + 1..] == x
  {
    assert forall k :: 0 <= k < |m| ==> (m + "/" + x)[k] == m[k] && m[k] in m;
  }

  // Text up to the first '/' is determined.
  lemma FirstName(m: Name, n: Name, x: string, y: string)
    requires '/' !in m && '/' !in n && m + "/" + x == n + "/" + y
    ensures m == n && x == y
  {
    SlashAfter(m, x);
    SlashAfter(n, y);
    assert |m| == |n|;
  }

  lemma ManyHaveSlash(p: Path)
    requires |p| > 1
    ensures '/' in Join(p)
  {
    assert Join(p)[|p[0]|] == '/';
  }

  /** Different paths have different texts. */
  lemma {:induction false} JoinInjective(p: Path, q: Path)
    requires NamesOk(p) && NamesOk(q) && Join(p) == Join(q)
    ensures p == q
  {
    if p == [] {
      if q != [] { JoinNotEmpty(q); }
    } else if q == [] {
      JoinNotEmpty(p);
    } else {
      assert p[0] in p && q[0] in q;
      assert NamesOk(p[1..]) && NamesOk(q[1..]);
      if |p| > 1 { ManyHaveSlash(p); }
      if |q| > 1 { ManyHaveSlash(q); }
      if |p| > 1 {
        FirstName(p[0], q[0], Join(p[1..]), Join(q[1..]));
        JoinInjective(p[1..], q[1..]);
        assert p == [p[0]] + p[1..] && q == [q[0]] + q[1..];
      }
    }
  }

  lemma {:induction false} JoinConcat(p: Path, q: Path)
    requires p != [] && q != []
    ensures Join(p + q) == Join(p) + "/" + Join(q)
  {
    assert (p + q)[1..] == p[1..] + q;
    if |p| > 1 {
      JoinConcat(p[1..], q);
    }
  }

  /** Below r, component by component, exactly when the text starts with r's text and a '/'. */
  lemma {:induction false} PrefixIsInside(p: Path, r: Path)
    requires NamesOk(p) && NamesOk(r) && r != []
    ensures HasPrefix(Join(p), Join(r) + "/") <==> Inside(p, r)
  {
    if Inside(p, r) {
      var rest := p[|r|..];
      assert p == r + rest;
      assert rest != [];
      JoinConcat(r, rest);
    }
    if HasPrefix(Join(p), Join(r) + "/") {
      PrefixMeansInside(p, r);
    }
  }

  lemma {:induction false} PrefixMeansInside(p: Path, r: Path)
    requires NamesOk(p) && NamesOk(r) && r != [] && HasPrefix(Join(p), Join(r) + "/")
    ensures Inside(p, r)
  {
    var s := Join(p);
    assert p != [];
    assert p[0] in p && r[0] in r;
    assert NamesOk(p[1..]) && NamesOk(r[1..]);
    var tail := s[|Join(r)| + 1..];
    assert s == (Join(r) + "/") + tail;
    assert s[|Join(r)|] == '/' && s[|Join(r)|] in s;
    assert |p| > 1;
    if |r| == 1 {
      FirstName(p[0], r[0], Join(p[1..]), tail);
    } else {
      assert s == r[0] + "/" + (Join(r[1..]) + "/" + tail);
      FirstName(p[0], r[0], Join(p[1..]), Join(r[1..]) + "/" + tail);
      assert HasPrefix(Join(p[1..]), Join(r[1..]) + "/");
      PrefixMeansInside(p[1..], r[1..]);
      assert p == [p[0]] + p[1..] && r == [r[0]] + r[1..];
    }
  }

  // ---- absolute paths -----------------------------------------------------------------------------

  function TrimRight(s: string): (t: string)
    ensures |t| <= |s| && s[..|t|] == t
    ensures t != "" ==> t[|t| - 1] != '/'
    ensures forall k :: |t| <= k < |s| ==> s[k] == '/'
  {
    if s != "" && s[|s| - 1] == '/' then TrimRight(s[..|s| - 1]) else s
  }

  function TrimLeft(s: string): string {
    if s != "" && s[0] == '/' then TrimLeft(s[1..]) else s
  }

  function TrimPrefix(s: string, prefix: string): string {
    if HasPrefix(s, prefix) then s[|prefix|..] else s
  }

  function JoinRemotePath(base: string, rel: string): string {
    var b := TrimRight(base);
    if b == "" then "/" + TrimLeft(rel) else b + "/" + TrimLeft(rel)
  }

  /** What the remote walk does to a listed path to make it relative. */
  function Relative(root: string, path: string): string {
    TrimPrefix(TrimPrefix(path, root), "/")
  }

  /** No trailing slash or one, or nothing but slashes. */
  predicate RootOk(root: string) {
    TrimRight(root) == "" || |root| <= |TrimRight(root)| + 1
  }

  /** Stripping the root undoes joining, exactly for these roots. */
  lemma RelativeUndoesJoin(root: string, rel: string)
    requires rel != "" && rel[0] != '/'
    ensures Relative(root, JoinRemotePath(root, rel)) == rel <==> RootOk(root)
  {
    var b := TrimRight(root);
    var full := JoinRemotePath(root, rel);
    if b == "" {
      assert full == "/" + rel && full[1..] == rel;
      if |root| >= 2 {
        assert root[1] == '/' && full[1] == rel[0];
      } else {
        assert root == "" || root == "/";
      }
    } else {
      assert full == b + "/" + rel && full[..|b|] == b && full[|b|..] == "/" + rel && full[|b| + 1..] == rel;
      if |root| == |b| {
        assert root == b;
      } else if |root| == |b| + 1 {
        assert root == b + "/";
      } else {
        assert root[|b| + 1] == '/' && full[|b| + 1] == rel[0];
        assert |TrimPrefix(full, "/")| > |rel|;
      }
    }
  }
}
