/** Failure records of actions, and which queue items a retry of one record re-queues. */
module Failures {
  import opened Trees
  import opened Actions
  import opened ConflictNames
  import opened PathText
  import opened OperationQueue

  datatype FailureRecord = FailureRecord(task: string, path: string, op: string)

  function TypeName(a: Action): string {
    match a
    case CreateDirLocal(_) => "CreateDirLocal"
    case CreateDirRemote(_) => "CreateDirRemote"
    case UploadFile(_) => "UploadFile"
    case DownloadFile(_) => "DownloadFile"
    case DeleteLocal(_, _) => "DeleteLocal"
    case DeleteRemote(_, _) => "DeleteRemote"
    case MoveLocal(_, _) => "MoveLocal"
    case MoveRemote(_, _) => "MoveRemote"
    case ConflictLocal(_, _) => "MoveConflictLocal"
    case ConflictRemote(_, _) => "MoveConflictRemote"
    case RefreshMetadata(_) => "RefreshMetadata"
  }

  /** Two actions have the same type name exactly if they are of the same type, and none has the name under
      which a queued request to run the task is stored. */
  lemma TypeNamesDiffer(a: Action, b: Action)
    ensures TypeName(a) == TypeName(b) <==> SameType(a, b)
    ensures TypeName(a) != OpText(BaselineSync)
  {
    var s, t := TypeName(a), TypeName(b);
    assert s[0] != OpText(BaselineSync)[0];
    // Names of different types differ in length, or at their first or fifth letter.
    assert s == t ==> |s| == |t| && s[0] == t[0] && s[4] == t[4];
  }

  predicate SameType(a: Action, b: Action) {
    && (a.CreateDirLocal? <==> b.CreateDirLocal?) && (a.CreateDirRemote? <==> b.CreateDirRemote?)
    && (a.UploadFile? <==> b.UploadFile?) && (a.DownloadFile? <==> b.DownloadFile?)
    && (a.DeleteLocal? <==> b.DeleteLocal?) && (a.DeleteRemote? <==> b.DeleteRemote?)
    && (a.MoveLocal? <==> b.MoveLocal?) && (a.MoveRemote? <==> b.MoveRemote?)
    && (a.ConflictLocal? <==> b.ConflictLocal?) && (a.ConflictRemote? <==> b.ConflictRemote?)
  }

  /** The remote path of an action, relative to the task's remote root. */
  function RemoteEndOf(a: Action): Path {
    if a.ConflictRemote? then a.copy else a.path
  }

  /** The target column of an action's row. A local delete has no remote path. */
  function TargetText(root: string, a: Action): string {
    if a.DeleteLocal? then "" else JoinRemotePath(root, Join(RemoteEndOf(a)))
  }

  function OpText(op: Payload): string {
    match op
    case Sync(a) => TypeName(a)
    case BaselineSync => "baseline_sync"
  }

  function Target(root: string, op: Payload): string {
    match op
    case Sync(a) => TargetText(root, a)
    case BaselineSync => root
  }

  /** The record a failed attempt at an action leaves. */
  function RecordOf(task: string, root: string, a: Action): FailureRecord {
    var path := Join(a.path);
    FailureRecord(task, if path == "" then TargetText(root, a) else path, TypeName(a))
  }

  predicate HasSuffix(s: string, suffix: string) {
    |suffix| <= |s| && s[|s| - |suffix|..] == suffix
  }

  /** The item is stuck, of the record's type, and its target is the record's path or ends with it. */
  predicate Matches(root: string, record: FailureRecord, item: Item) {
    && Stuck(item) && OpText(item.op) == record.op
    && var target := Target(root, item.op);
       record.path == "" || target == record.path || HasSuffix(target, "/" + record.path)
  }

  // ---- what the text match means ------------------------------------------------------------------

  /** The last components of q are p. */
  predicate EndsWith(q: Path, p: Path) {
    |p| <= |q| && q[|q| - |p|..] == p
  }

  /** The root's text is that of a clean absolute path, up to trailing slashes. */
  predicate RootText(root: string, at: Path) {
    TrimRight(root) == if at == [] then "" else "/" + Join(at)
  }

  lemma JoinedTarget(root: string, at: Path, q: Path)
    requires RootText(root, at) && q != [] && NamesOk(q)
    ensures JoinRemotePath(root, Join(q)) == "/" + Join(at + q)
  {
    JoinNotEmpty(q);
    if at == [] {
      assert at + q == q;
    } else {
      JoinConcat(at, q);
    }
  }

  // A suffix that starts with '/' and is not the whole text does not start inside the first name.
  lemma SuffixSkipsName(m: Name, x: string, u: string)
    requires '/' !in m && u != "" && u[0] == '/' && HasSuffix("/" + m + x, u) && |u| <= |m + x|
    ensures HasSuffix(x, u)
  {
    var s := "/" + m + x;
    var k := |s| - |u|;
    assert s[k] == u[0];
    forall i | 1 <= i <= |m| ensures s[i] != '/' {
      assert s[i] == m[i - 1] && m[i - 1] in m;
    }
    assert s[|m| + 1..] == x;
    assert x[|x| - |u|..] == s[k..];
  }

  lemma {:induction false} SuffixMeansEndsWith(q: Path, p: Path)
    requires NamesOk(p) && NamesOk(q) && p != [] && q != [] && HasSuffix("/" + Join(q), "/" + Join(p))
    ensures EndsWith(q, p)
  {
    assert q[0] in q;
    if |Join(p)| == |Join(q)| {
      SameTexts(q, p);
    } else if |q| == 1 {
      SuffixSkipsName(q[0], "", "/" + Join(p));
    } else {
      SuffixLater(q, p);
      SuffixMeansEndsWith(q[1..], p);
      assert q[1..][|q| - 1 - |p|..] == q[|q| - |p|..];
    }
  }

  lemma SameTexts(q: Path, p: Path)
    requires NamesOk(p) && NamesOk(q) && |Join(p)| == |Join(q)| && HasSuffix("/" + Join(q), "/" + Join(p))
    ensures p == q
  {
    var s, u := "/" + Join(q), "/" + Join(p);
    assert s[0..] == s && Join(q) == s[1..] == u[1..] == Join(p);
    JoinInjective(p, q);
  }

  lemma SuffixLater(q: Path, p: Path)
    requires NamesOk(q) && |q| > 1 && |Join(p)| < |Join(q)| && HasSuffix("/" + Join(q), "/" + Join(p))
    ensures HasSuffix("/" + Join(q[1..]), "/" + Join(p))
  {
    assert q[0] in q;
    assert "/" + Join(q) == "/" + q[0] + ("/" + Join(q[1..]));
    SuffixSkipsName(q[0], "/" + Join(q[1..]), "/" + Join(p));
  }

  lemma EndsWithMeansSuffix(q: Path, p: Path)
    requires p != [] && EndsWith(q, p)
    ensures HasSuffix("/" + Join(q), "/" + Join(p))
  {
    var front := q[..|q| - |p|];
    assert q == front + p;
    if front == [] {
      assert q == p;
    } else {
      JoinConcat(front, p);
      SuffixOf("/" + Join(front), "/" + Join(p));
      assert "/" + Join(q) == ("/" + Join(front)) + ("/" + Join(p));
    }
  }

  lemma SuffixOf(x: string, y: string)
    ensures HasSuffix(x + y, y)
  {
  }

  /** The text ends with a slash and p's text exactly if the path ends with p, component by component. */
  lemma SuffixIsEndsWith(q: Path, p: Path)
    requires NamesOk(p) && NamesOk(q) && p != [] && q != []
    ensures HasSuffix("/" + Join(q), "/" + Join(p)) <==> EndsWith(q, p)
  {
    if EndsWith(q, p) {
      EndsWithMeansSuffix(q, p);
    } else if HasSuffix("/" + Join(q), "/" + Join(p)) {
      SuffixMeansEndsWith(q, p);
    }
  }

  lemma TargetMatches(root: string, at: Path, p: Path, a: Action)
    requires RootText(root, at) && p != [] && NamesOk(p) && NamesOk(at)
    requires RemoteEndOf(a) != [] && NamesOk(RemoteEndOf(a))
    ensures TargetText(root, a) != Join(p)
    ensures HasSuffix(TargetText(root, a), "/" + Join(p)) <==> !a.DeleteLocal? && EndsWith(at + RemoteEndOf(a), p)
  {
    var q := RemoteEndOf(a);
    JoinNotEmpty(p);
    if !a.DeleteLocal? {
      JoinedTarget(root, at, q);
      assert ("/" + Join(at + q))[0] == '/';
      SuffixIsEndsWith(at + q, p);
    }
  }

  /** An action's item is matched by the record of a path exactly if it is stuck, of the same type, not a
      local delete, and its full remote path ends with that path. */
  lemma MatchesExactly(root: string, at: Path, task: string, op: string, p: Path, item: Item)
    requires RootText(root, at) && p != [] && NamesOk(p) && NamesOk(at)
    requires item.op.Sync? && RemoteEndOf(item.op.action) != [] && NamesOk(RemoteEndOf(item.op.action))
    ensures Matches(root, FailureRecord(task, Join(p), op), item) <==>
            && Stuck(item) && TypeName(item.op.action) == op && !item.op.action.DeleteLocal?
            && EndsWith(at + RemoteEndOf(item.op.action), p)
  {
    JoinNotEmpty(p);
    TargetMatches(root, at, p, item.op.action);
  }

  lemma CopyIsOther(at: Path, p: Path, v: int)
    requires p != [] && NamesOk(p)
    ensures var c := CopyPath(p, REMOTE_COPY, v); c != [] && NamesOk(c) && !EndsWith(at + c, p)
  {
    var c := CopyPath(p, REMOTE_COPY, v);
    assert Last(p) in p && forall n :: n in c ==> n in p || n == Last(c);
    ConflictNameFresh(Last(p), REMOTE_COPY, v);
    BaseAndExt(Last(p));
    assert Last(c) == Base(Last(p)) + REMOTE_COPY + Decimal(VersionOf(v)) + Ext(Last(p));
    assert '/' !in Base(Last(p)) && '/' !in Ext(Last(p)) by {
      assert forall x :: x in Base(Last(p)) || x in Ext(Last(p)) ==> x in Base(Last(p)) + Ext(Last(p));
    }
    assert (at + c)[|at + c| - 1] == Last(c) && p[|p| - 1] == Last(p);
    assert |p| <= |at + c| ==> (at + c)[|at + c| - |p|..][|p| - 1] == Last(c);
  }

  /** Retrying the record of a failed action re-queues its own item, unless the action is a local delete,
      whose row has no target, or the upload half of a keep_both pair, whose target is the copy. */
  lemma OwnItemRetried(root: string, at: Path, task: string, item: Item, a: Action, v: int)
    requires RootText(root, at) && NamesOk(at) && Stuck(item) && item.op == Sync(a)
    requires a.path != [] && NamesOk(a.path)
    requires a.ConflictRemote? ==> a.copy == CopyPath(a.path, REMOTE_COPY, v)
    ensures Matches(root, RecordOf(task, root, a), item) <==> !a.DeleteLocal? && !a.ConflictRemote?
  {
    var p := a.path;
    JoinNotEmpty(p);
    CopyIsOther(at, p, v);
    assert EndsWith(at + p, p);
    MatchesExactly(root, at, task, TypeName(a), p, item);
  }

  /** A record without a path matches every stuck item of its type. The record of an action on the root itself
      is not one, local deletes excepted: it takes the action's target for a path, and matches its own item. */
  lemma PathlessRecords(root: string, task: string, op: string, item: Item, a: Action)
    requires Stuck(item) && item.op == Sync(a)
    ensures Matches(root, FailureRecord(task, "", op), item) <==> TypeName(a) == op
    ensures a.path == [] ==> Matches(root, RecordOf(task, root, a), item)
    ensures a.path == [] && !a.DeleteLocal? ==> RecordOf(task, root, a).path != ""
  {
  }
}
