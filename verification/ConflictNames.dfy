/** The names of keep_both conflict copies, as text: base + marker + version + extension. */
module ConflictNames {
  import opened Text
  import opened Trees

  const LOCAL_COPY := ".remote-conflict-v"   // the remote version, kept locally
  const REMOTE_COPY := ".local-conflict-v"   // the local version, kept remotely

  predicate IsMarker(m: string) { m == LOCAL_COPY || m == REMOTE_COPY }

  /** The suffix from the last '.' of the last path component, or nothing. */
  function Ext(s: string): (e: string)
    ensures |e| <= |s|
  {
    if s == "" then ""
    else
      var n := |s| - 1;
      if s[n] == '/' then ""
      else if s[n] == '.' then "."
      else
        var e := Ext(s[..n]);
        if e == "" then "" else e + [s[n]]
  }

  function Base(s: string): string {
    s[..|s| - |Ext(s)|]
  }

  /** A '.' followed by neither '.' nor '/': the shape of every extension. */
  predicate ExtShape(e: string) {
    e != "" && e[0] == '.' && '.' !in e[1..] && '/' !in e[1..]
  }

  lemma {:induction false} BaseAndExt(s: string)
    ensures Base(s) + Ext(s) == s
    ensures Ext(s) == "" || ExtShape(Ext(s))
  {
    if s != "" {
      var n := |s| - 1;
      var front, c := s[..n], s[n];
      assert s == front + [c];
      if c == '/' {
      } else if c == '.' {
        assert Base(s) == front;
      } else {
        BaseAndExt(front);
        var e := Ext(front);
        if e != "" {
          assert (e + [c])[1..] == e[1..] + [c];
          assert Base(s) == Base(front);
          assert Base(front) + (e + [c]) == (Base(front) + e) + [c];
        }
      }
    }
  }

  function Decimal(n: nat): (s: string)
    ensures |s| >= 1 && AllDigits(s)
  {
    if n < 10 then [Digit(n)] else Decimal(n / 10) + [Digit(n % 10)]
  }

  function Digit(d: nat): (c: char)
    requires d < 10
    ensures '0' <= c <= '9'
  {
    '0' + d as char
  }

  function VersionOf(v: int): nat {
    if v > 1 then v else 1
  }

  /** conflictLocalPath and conflictRemotePath, which differ in the marker only. */
  function ConflictName(s: string, marker: string, v: int): string {
    Base(s) + marker + Decimal(VersionOf(v)) + Ext(s)
  }

  lemma {:induction false} DecimalInjective(m: nat, n: nat)
    requires Decimal(m) == Decimal(n)
    ensures m == n
  {
    if m < 10 && n < 10 {
      assert Digit(m) == Digit(n);
    } else if m >= 10 && n >= 10 {
      var a, b := Decimal(m / 10), Decimal(n / 10);
      assert a == Decimal(m)[..|Decimal(m)| - 1] == Decimal(n)[..|Decimal(n)| - 1] == b;
      assert Digit(m % 10) == Decimal(m)[|Decimal(m)| - 1] == Decimal(n)[|Decimal(n)| - 1] == Digit(n % 10);
      DecimalInjective(m / 10, n / 10);
    } else {
      assert false;
    }
  }

  lemma {:induction false} DecimalReads(n: nat)
    ensures ValueOf(Decimal(n)) == n
  {
    if n >= 10 {
      DecimalReads(n / 10);
      assert Decimal(n)[..|Decimal(n)| - 1] == Decimal(n / 10);
    } else {
      assert Decimal(n)[..0] == "";
    }
  }

  // A suffix that starts with '.' and has no further '.' or '/' is the extension.
  lemma {:induction false} ExtOfSuffix(x: string, y: string)
    requires ExtShape(y)
    ensures Ext(x + y) == y && Base(x + y) == x
  {
    var n := |x + y| - 1;
    if |y| > 1 {
      var y1 := y[..|y| - 1];
      var c := y[|y| - 1];
      assert (x + y)[..n] == x + y1 && (x + y)[n] == c;
      assert y1[1..] == y[1..][..|y| - 2] && c == y[1..][|y| - 2] && c in y[1..];
      assert forall d :: d in y1[1..] ==> d in y[1..];
      ExtOfSuffix(x, y1);
      assert y == y1 + [c];
    }
  }

  /** The version stamp, which itself has the form of an extension. */
  function Stamp(marker: string, v: int): (s: string)
    requires IsMarker(marker)
    ensures ExtShape(s)
  {
    var d := Decimal(VersionOf(v));
    assert (marker + d)[1..] == marker[1..] + d;
    assert '.' !in d && '/' !in d;
    assert '.' !in marker[1..] && '/' !in marker[1..];
    marker + d
  }

  lemma StampInjective(m1: string, v1: int, m2: string, v2: int)
    requires IsMarker(m1) && IsMarker(m2) && Stamp(m1, v1) == Stamp(m2, v2)
    ensures m1 == m2 && VersionOf(v1) == VersionOf(v2)
  {
    assert Stamp(m1, v1)[1] == m1[1] && Stamp(m2, v2)[1] == m2[1];
    assert m1 == m2;
    assert Stamp(m1, v1)[|m1|..] == Decimal(VersionOf(v1)) && Stamp(m2, v2)[|m2|..] == Decimal(VersionOf(v2));
    DecimalInjective(VersionOf(v1), VersionOf(v2));
  }

  // The name up to the extension ends in the stamp.
  lemma StampIsExt(s: string, marker: string, v: int)
    requires IsMarker(marker)
    ensures Ext(Base(s) + Stamp(marker, v)) == Stamp(marker, v)
    ensures Base(Base(s) + Stamp(marker, v)) == Base(s)
    ensures ConflictName(s, marker, v) == (Base(s) + Stamp(marker, v)) + Ext(s)
  {
    ExtOfSuffix(Base(s), Stamp(marker, v));
    assert Base(s) + marker + Decimal(VersionOf(v)) == Base(s) + Stamp(marker, v);
  }

  lemma ConflictNameParts(s: string, marker: string, v: int)
    requires IsMarker(marker)
    ensures Ext(s) != "" ==> Ext(ConflictName(s, marker, v)) == Ext(s)
    ensures Ext(s) != "" ==> Base(ConflictName(s, marker, v)) == Base(s) + Stamp(marker, v)
    ensures Ext(s) == "" ==> Ext(ConflictName(s, marker, v)) == Stamp(marker, v)
    ensures Ext(s) == "" ==> Base(ConflictName(s, marker, v)) == s
  {
    var front := Base(s) + Stamp(marker, v);
    StampIsExt(s, marker, v);
    BaseAndExt(s);
    if Ext(s) != "" {
      ExtOfSuffix(front, Ext(s));
    } else {
      assert front + "" == front;
      assert Base(s) + "" == Base(s);
    }
  }

  /** The name of a file with an extension: the stamp comes before it, names the side the version is from and
      carries the version, 1 at least. */
  lemma NamedWithExtension(front: string, ext: string, v: int)
    requires ExtShape(ext)
    ensures var stamp := Decimal(if v >= 1 then v else 1) + ext;
            && ConflictName(front + ext, LOCAL_COPY, v) == front + ".remote-conflict-v" + stamp
            && ConflictName(front + ext, REMOTE_COPY, v) == front + ".local-conflict-v" + stamp
  {
    ExtOfSuffix(front, ext);
    var d := Decimal(VersionOf(v));
    assert front + LOCAL_COPY + d + ext == front + LOCAL_COPY + (d + ext);
    assert front + REMOTE_COPY + d + ext == front + REMOTE_COPY + (d + ext);
  }

  /** The name of a file without one: the stamp comes last. */
  lemma NamedWithoutExtension(s: string, v: int)
    requires '.' !in s
    ensures ConflictName(s, LOCAL_COPY, v) == s + ".remote-conflict-v" + Decimal(if v >= 1 then v else 1)
    ensures ConflictName(s, REMOTE_COPY, v) == s + ".local-conflict-v" + Decimal(if v >= 1 then v else 1)
  {
    NoExtension(s);
    var d := Decimal(VersionOf(v));
    assert s + LOCAL_COPY + d + "" == s + LOCAL_COPY + d && s + REMOTE_COPY + d + "" == s + REMOTE_COPY + d;
  }

  lemma {:induction false} NoExtension(s: string)
    requires '.' !in s
    ensures Ext(s) == "" && Base(s) == s
  {
    if s != "" {
      NoExtension(s[..|s| - 1]);
    }
  }

  /** Conflict names determine the original name, the side and the version, whatever dots, missing
      extensions or earlier conflict stamps the original name has. */
  lemma ConflictNameInjective(s1: string, m1: string, v1: int, s2: string, m2: string, v2: int)
    requires IsMarker(m1) && IsMarker(m2)
    requires ConflictName(s1, m1, v1) == ConflictName(s2, m2, v2)
    ensures s1 == s2 && m1 == m2 && VersionOf(v1) == VersionOf(v2)
  {
    ConflictNameParts(s1, m1, v1);
    ConflictNameParts(s2, m2, v2);
    StampIsExt(s1, m1, v1);
    StampIsExt(s2, m2, v2);
    if Ext(s1) != "" && Ext(s2) != "" {
      assert Stamp(m1, v1) == Ext(Base(s1) + Stamp(m1, v1)) == Stamp(m2, v2);
      assert Base(s1) == Base(s2);
      BaseAndExt(s1);
      BaseAndExt(s2);
    }
    StampInjective(m1, v1, m2, v2);
  }

  /** A conflict name is never the original name. */
  lemma ConflictNameFresh(s: string, marker: string, v: int)
    requires IsMarker(marker)
    ensures ConflictName(s, marker, v) != s
  {
    assert |ConflictName(s, marker, v)| > |Base(s)| + |Ext(s)|;
    BaseAndExt(s);
    assert |s| == |Base(s) + Ext(s)|;
  }

  /** Only the last component of a path is renamed. */
  lemma ConflictNameIsPerComponent(dir: string, name: string, marker: string, v: int)
    requires '/' !in name && dir != "" && dir[|dir| - 1] == '/'
    ensures ConflictName(dir + name, marker, v) == dir + ConflictName(name, marker, v)
  {
    var s := dir + name;
    ExtInLastComponent(dir, name);
    BaseAndExt(s);
    BaseAndExt(name);
    SplitSuffix(dir, Base(name), Base(s), Ext(name));
    var d := Decimal(VersionOf(v));
    assert (dir + Base(name)) + marker + d + Ext(name) == dir + (Base(name) + marker + d + Ext(name));
  }

  lemma SplitSuffix(dir: string, b: string, whole: string, e: string)
    requires whole + e == dir + (b + e)
    ensures whole == dir + b
  {
    assert whole == (whole + e)[..|whole|];
    assert dir + b == (dir + (b + e))[..|dir| + |b|];
  }

  lemma {:induction false} ExtInLastComponent(dir: string, name: string)
    requires '/' !in name && dir != "" && dir[|dir| - 1] == '/'
    ensures Ext(dir + name) == Ext(name)
  {
    var s := dir + name;
    if name == "" {
      assert s == dir;
    } else {
      var n := |name| - 1;
      assert s[..|s| - 1] == dir + name[..n];
      assert s[|s| - 1] == name[n] && name[n] in name;
      ExtInLastComponent(dir, name[..n]);
    }
  }

  // ---- the same on tree paths ---------------------------------------------------------------------

  function Renamed(p: Path, name: Name): Path
    requires p != []
  {
    p[..|p| - 1] + [name]
  }

  function Last(p: Path): Name
    requires p != []
  {
    p[|p| - 1]
  }

  function CopyPath(p: Path, marker: string, v: int): Path {
    if p == [] then [] else Renamed(p, ConflictName(Last(p), marker, v))
  }

  lemma RenamedInjective(p: Path, x: Name, q: Path, y: Name)
    requires p != [] && q != [] && Renamed(p, x) == Renamed(q, y)
    ensures x == y && Renamed(p, Last(p)) == Renamed(q, Last(p))
  {
    assert Last(Renamed(p, x)) == x && Last(Renamed(q, y)) == y;
    assert p[..|p| - 1] == Renamed(p, x)[..|p| - 1] == Renamed(q, y)[..|p| - 1] == q[..|q| - 1];
  }

  lemma RenamedSame(p: Path)
    requires p != []
    ensures Renamed(p, Last(p)) == p
  {
  }

  lemma CopyPathInjective(p: Path, m1: string, v1: int, q: Path, m2: string, v2: int)
    requires p != [] && q != [] && IsMarker(m1) && IsMarker(m2)
    requires CopyPath(p, m1, v1) == CopyPath(q, m2, v2)
    ensures p == q && m1 == m2 && VersionOf(v1) == VersionOf(v2)
  {
    RenamedInjective(p, ConflictName(Last(p), m1, v1), q, ConflictName(Last(q), m2, v2));
    ConflictNameInjective(Last(p), m1, v1, Last(q), m2, v2);
    RenamedSame(p);
    RenamedSame(q);
  }

  lemma CopyPathParents(p: Path, marker: string, v: int, d: Path)
    requires p != []
    ensures Inside(CopyPath(p, marker, v), d) <==> Inside(p, d)
  {
    var c := CopyPath(p, marker, v);
    assert Parent(c) == Parent(p) by {
      assert c[..|c| - 1] == p[..|p| - 1];
    }
    assert Covers(d, Parent(c)) <==> Covers(d, Parent(p));
  }
}
