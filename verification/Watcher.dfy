/** The local watcher: its watch set over reconciliations, and its debounced triggers over events. */
module Watcher {
  import opened Trees
  import opened PathText
  import opened Planner

  datatype WatchTask = WatchTask(id: string, localPath: string, running: bool, direction: Direction)

  predicate ShouldWatch(t: WatchTask) {
    t.running && (t.direction.UploadOnly? || t.direction.Bidirectional?)
  }

  predicate PathWithinRoot(path: string, root: string) {
    path == root || HasPrefix(path, TrimRight(root) + "/")
  }

  function Absolute(p: Path): string {
    "/" + Join(p)
  }

  /** On clean absolute paths, within means a component-wise prefix. */
  lemma WithinIsComponentwise(p: Path, r: Path)
    requires NamesOk(p) && NamesOk(r)
    ensures PathWithinRoot(Absolute(p), Absolute(r)) <==> Covers(r, p)
  {
    if r == [] {
      assert TrimRight("/") == "" by { assert "/"[..0] == ""; }
      assert HasPrefix(Absolute(p), "/");
    } else {
      NoTrailingSlash(r);
      assert TrimRight(Absolute(r)) == Absolute(r);
      var a, b := Join(p), Join(r) + "/";
      assert Absolute(r) + "/" == "/" + b;
      assert HasPrefix("/" + a, "/" + b) <==> HasPrefix(a, b) by {
        if |b| <= |a| { assert ("/" + a)[..|b| + 1] == "/" + a[..|b|]; }
        if HasPrefix("/" + a, "/" + b) { assert a[..|b|] == ("/" + a)[..|b| + 1][1..] == ("/" + b)[1..] == b; }
      }
      PrefixIsInside(p, r);
      if Absolute(p) == Absolute(r) {
        assert Absolute(p)[1..] == Join(p) && Absolute(r)[1..] == Join(r);
        JoinInjective(p, r);
      }
    }
  }

  lemma {:induction false} NoTrailingSlash(r: Path)
    requires r != [] && NamesOk(r)
    ensures Join(r) != "" && Join(r)[|Join(r)| - 1] != '/'
  {
    assert r[0] in r;
    if |r| == 1 {
      assert r[0][|r[0]| - 1] in r[0];
    } else {
      assert NamesOk(r[1..]);
      NoTrailingSlash(r[1..]);
    }
  }

  /** The file system watcher underneath: the set of directories it watches. */
  class Backend {
    var live: set<string>

    constructor ()
      ensures live == {}
    {
      live := {};
    }

    method Add(dir: string, accepts: bool) returns (ok: bool)
      modifies this
      ensures ok == accepts && live == if ok then old(live) + {dir} else old(live)
    {
      ok := accepts;
      if ok {
        live := live + {dir};
      }
    }

    method Remove(dir: string)
      modifies this
      ensures live == old(live) - {dir}
    {
      live := live - {dir};
    }
  }

  datatype Trigger = Trigger(task: string, time: int)

  /** Two triggers of one task are at least the debounce apart. */
  ghost predicate Spaced(log: seq<Trigger>, debounce: int) {
    forall j, k :: 0 <= j < k < |log| && log[j].task == log[k].task ==> log[k].time - log[j].time >= debounce
  }

  /** The task runs and sends local changes, and this is its root. */
  ghost predicate SendsFrom(t: WatchTask, root: string) {
    t.running && t.direction != DownloadOnly && t.localPath == root
  }

  /** Which directories a list of tasks asks to watch, and which of them the backend accepts. */
  ghost predicate Wanted(tasks: seq<WatchTask>, dirs: string -> seq<string>, accepts: string -> bool, d: string) {
    accepts(d) && exists t, root :: t in tasks && SendsFrom(t, root) && d in dirs(root)
  }

  ghost predicate ActiveRoot(tasks: seq<WatchTask>, root: string) {
    exists t :: t in tasks && SendsFrom(t, root)
  }

  /** A task with that id asked for it. */
  ghost predicate AskedBy(tasks: seq<WatchTask>, root: string, id: string) {
    exists t :: t in tasks && SendsFrom(t, root) && t.id == id
  }

  /** A task with that id asked to watch the directory. */
  ghost predicate WatchedFor(tasks: seq<WatchTask>, dirs: string -> seq<string>, d: string, id: string) {
    exists t, root :: t in tasks && SendsFrom(t, root) && d in dirs(root) && t.id == id
  }

  /** Whether a task may be triggered now, given the last trigger of each. */
  predicate DueAfter(debounce: int, last: map<string, int>, task: string, now: int) {
    debounce <= 0 || task !in last || now - last[task] >= debounce
  }

  /** Of the handled tasks exactly the due ones have been triggered; current is last brought up to date. */
  ghost predicate Answered(debounce: int, last: map<string, int>, now: int, handled: set<string>,
                           added: seq<Trigger>, current: map<string, int>)
  {
    && (forall x :: x in added <==> x.time == now && x.task in handled && DueAfter(debounce, last, x.task, now))
    && (forall t :: t in current <==> t in last || t in handled)
    && forall t :: t in current ==>
         current[t] == if t in handled && DueAfter(debounce, last, t, now) then now else last[t]
  }

  lemma AnswerNext(debounce: int, last: map<string, int>, now: int, handled: set<string>,
                   added: seq<Trigger>, current: map<string, int>, t: string)
    requires Answered(debounce, last, now, handled, added, current)
    ensures if DueAfter(debounce, current, t, now)
            then Answered(debounce, last, now, handled + {t}, added + [Trigger(t, now)], current[t := now])
            else Answered(debounce, last, now, handled + {t}, added, current)
  {
    assert forall x :: x in added + [Trigger(t, now)] <==> x in added || x == Trigger(t, now);
    assert t !in handled ==> (t in current <==> t in last);
    assert DueAfter(debounce, current, t, now) ==> DueAfter(debounce, last, t, now);
    assert t !in handled ==> (DueAfter(debounce, current, t, now) <==> DueAfter(debounce, last, t, now));
    assert !DueAfter(debounce, current, t, now) ==> t in current;
  }

  /** What is remembered of each task is its last trigger. */
  ghost predicate Remembers(log: seq<Trigger>, last: map<string, int>, clock: int) {
    && (forall x :: x in log ==> x.task in last && x.time <= last[x.task])
    && forall t :: t in last ==> last[t] <= clock && Trigger(t, last[t]) in log
  }

  /** Every trigger of the task is at least the debounce ago. */
  ghost predicate Quiet(log: seq<Trigger>, task: string, now: int, debounce: int) {
    forall x :: x in log && x.task == task ==> now - x.time >= debounce
  }

  /** A task whose every trigger is at least the debounce ago is due, whether it was ever triggered or not. */
  lemma DueWhenQuiet(log: seq<Trigger>, last: map<string, int>, task: string, now: int, debounce: int)
    requires Remembers(log, last, now) && Quiet(log, task, now, debounce)
    ensures DueAfter(debounce, last, task, now)
  {
    assert task in last ==> Trigger(task, last[task]) in log;
  }

  lemma RemembersNext(log: seq<Trigger>, last: map<string, int>, task: string, now: int, debounce: int)
    requires Remembers(log, last, now) && Spaced(log, debounce) && DueAfter(debounce, last, task, now)
    ensures Remembers(log + [Trigger(task, now)], last[task := now], now)
    ensures Spaced(log + [Trigger(task, now)], debounce)
  {
    var more := log + [Trigger(task, now)];
    assert forall x :: x in more <==> x in log || x == Trigger(task, now);
    forall j, k | 0 <= j < k < |more| && more[j].task == more[k].task ensures more[k].time - more[j].time >= debounce {
      assert more[j] == log[j] && log[j] in log;
    }
  }

  class Watcher {
    const debounce: int
    const backend: Backend
    var watched: map<string, string>
    var roots: map<string, string>
    var lastTriggered: map<string, int>
    ghost var log: seq<Trigger>

    constructor (d: int, b: Backend)
      ensures debounce == d && backend == b && watched == map[] && roots == map[] && lastTriggered == map[] && log == []
    {
      debounce, backend := d, b;
      watched, roots, lastTriggered, log := map[], map[], map[], [];
    }

    /** The last triggers are remembered, and triggers are spaced. */
    ghost predicate Valid(clock: int)
      reads this
    {
      Remembers(log, lastTriggered, clock) && Spaced(log, debounce)
    }

    predicate ShouldTrigger(task: string, now: int)
      reads this
    {
      DueAfter(debounce, lastTriggered, task, now)
    }

    /** Some root of the task contains the path. */
    predicate Concerns(path: string, task: string)
      reads this
    {
      exists root :: root in roots && PathWithinRoot(path, root) && roots[root] == task
    }

    /** Afterwards a directory is watched exactly if it lies within an active root and was watched
        before or is wanted and accepted, and the backend watches the same set if it did before. Paths
        are clean; dirs lists the directories at and below a root. */
    method Reconcile(tasks: seq<WatchTask>, dirs: string -> seq<string>, accepts: string -> bool)
      requires forall root, d :: d in dirs(root) ==> PathWithinRoot(d, root)
      modifies this`watched, this`roots, backend
      ensures forall root :: root in roots <==> ActiveRoot(tasks, root)
      ensures forall root :: root in roots ==> AskedBy(tasks, root, roots[root])
      ensures forall d :: d in watched <==>
                && (d in old(watched) || Wanted(tasks, dirs, accepts, d))
                && exists root :: root in roots && PathWithinRoot(d, root)
      ensures forall d :: d in watched ==>
                if d in old(watched) then watched[d] == old(watched)[d] else WatchedFor(tasks, dirs, d, watched[d])
      ensures old(backend.live) == old(watched).Keys ==> backend.live == watched.Keys
    {
      var active: map<string, string> := map[];
      var k := 0;
      while k < |tasks|
        invariant 0 <= k <= |tasks|
        invariant forall root :: root in active <==> ActiveRoot(tasks[..k], root)
        invariant forall root :: root in active ==> AskedBy(tasks[..k], root, active[root])
        invariant forall d :: d in watched <==> d in old(watched) || Wanted(tasks[..k], dirs, accepts, d)
        invariant forall d :: d in watched ==>
                    if d in old(watched) then watched[d] == old(watched)[d]
                    else WatchedFor(tasks[..k], dirs, d, watched[d])
        invariant old(backend.live) == old(watched).Keys ==> backend.live == watched.Keys
      {
        var task := tasks[k];
        assert tasks[..k + 1] == tasks[..k] + [task];
        if ShouldWatch(task) {
          assert SendsFrom(task, task.localPath);
          active := active[task.localPath := task.id];
          ghost var before := watched;
          WatchAll(task.id, dirs(task.localPath), accepts);
          forall d ensures d in watched <==> d in old(watched) || Wanted(tasks[..k + 1], dirs, accepts, d) {
            assert Wanted(tasks[..k + 1], dirs, accepts, d) <==>
                   Wanted(tasks[..k], dirs, accepts, d) || (accepts(d) && d in dirs(task.localPath));
          }
        }
        k := k + 1;
      }
      assert tasks[..k] == tasks;
      RemoveStale(active);
      roots := active;
    }

    method WatchAll(task: string, dirs: seq<string>, accepts: string -> bool)
      modifies this`watched, backend
      ensures forall d :: d in watched <==> d in old(watched) || (d in dirs && accepts(d))
      ensures forall d :: d in watched ==> watched[d] == if d in old(watched) then old(watched)[d] else task
      ensures old(backend.live) == old(watched).Keys ==> backend.live == watched.Keys
    {
      var k := 0;
      while k < |dirs|
        invariant 0 <= k <= |dirs|
        invariant forall d :: d in watched <==> d in old(watched) || (d in dirs[..k] && accepts(d))
        invariant forall d :: d in watched ==> watched[d] == if d in old(watched) then old(watched)[d] else task
        invariant old(backend.live) == old(watched).Keys ==> backend.live == watched.Keys
      {
        if dirs[k] !in watched {
          var ok := backend.Add(dirs[k], accepts(dirs[k]));
          if ok {
            watched := watched[dirs[k] := task];
          }
        }
        k := k + 1;
      }
    }

    /** Stops watching what no active root covers. */
    method RemoveStale(active: map<string, string>)
      modifies this`watched, backend
      ensures forall d :: d in watched <==>
                d in old(watched) && exists root :: root in active && PathWithinRoot(d, root)
      ensures forall d :: d in watched ==> watched[d] == old(watched)[d]
      ensures old(backend.live) == old(watched).Keys ==> backend.live == watched.Keys
    {
      var todo := watched.Keys;
      while todo != {}
        invariant todo <= watched.Keys <= old(watched).Keys
        invariant forall d :: d in watched ==> watched[d] == old(watched)[d]
        invariant forall d :: d in old(watched) && d !in todo ==>
                    (d in watched <==> exists root :: root in active && PathWithinRoot(d, root))
        invariant old(backend.live) == old(watched).Keys ==> backend.live == watched.Keys
      {
        var d :| d in todo;
        todo := todo - {d};
        if !(exists root :: root in active && PathWithinRoot(d, root)) {
          backend.Remove(d);
          watched := watched - {d};
        }
      }
    }

    /** One task of an event: triggered unless it was less than the debounce ago. Of the event, start, last
        and handled say what the log and the memory were before it and which tasks it has reached. */
    method TriggerIfDue(task: string, now: int, ghost start: seq<Trigger>, ghost last: map<string, int>,
                        ghost handled: set<string>)
      requires Valid(now) && start <= log
      requires Answered(debounce, last, now, handled, log[|start|..], lastTriggered)
      modifies this`lastTriggered, this`log
      ensures Valid(now) && start <= log
      ensures Answered(debounce, last, now, handled + {task}, log[|start|..], lastTriggered)
    {
      AnswerNext(debounce, last, now, handled, log[|start|..], lastTriggered, task);
      if ShouldTrigger(task, now) {
        RemembersNext(log, lastTriggered, task, now, debounce);
        assert (log + [Trigger(task, now)])[|start|..] == log[|start|..] + [Trigger(task, now)];
        lastTriggered := lastTriggered[task := now];
        log := log + [Trigger(task, now)];
      }
    }

    /** Every task whose root contains the path is triggered now unless it was less than the debounce
        ago; no other task is. */
    method HandleEvent(path: string, now: int)
      requires Valid(now)
      modifies this`lastTriggered, this`log
      ensures Valid(now)
      ensures old(log) <= log
      ensures forall x :: x in log[|old(log)|..] <==>
                x.time == now && Concerns(path, x.task) && old(ShouldTrigger(x.task, now))
      ensures forall t :: Concerns(path, t) && Quiet(old(log), t, now, debounce) ==>
                Trigger(t, now) in log[|old(log)|..]
      ensures forall t :: Concerns(path, t) ==>
                && t in lastTriggered
                && lastTriggered[t] == if old(ShouldTrigger(t, now)) then now else old(lastTriggered)[t]
      ensures forall t :: !Concerns(path, t) ==>
                && (t in lastTriggered <==> t in old(lastTriggered))
                && (t in lastTriggered ==> lastTriggered[t] == old(lastTriggered)[t])
    {
      var todo := roots.Keys;
      ghost var handled: set<string> := {};
      while todo != {}
        invariant todo <= roots.Keys
        invariant forall root :: root in roots && root !in todo && PathWithinRoot(path, root) ==> roots[root] in handled
        invariant forall t :: t in handled ==> Concerns(path, t)
        invariant Valid(now) && old(log) <= log
        invariant Answered(debounce, old(lastTriggered), now, handled, log[|old(log)|..], lastTriggered)
      {
        var root :| root in todo;
        todo := todo - {root};
        if PathWithinRoot(path, root) {
          var t := roots[root];
          TriggerIfDue(t, now, old(log), old(lastTriggered), handled);
          handled := handled + {t};
        }
      }
      forall t | Concerns(path, t) && Quiet(old(log), t, now, debounce)
        ensures Trigger(t, now) in log[|old(log)|..]
      {
        DueWhenQuiet(old(log), old(lastTriggered), t, now, debounce);
      }
    }
  }
}
