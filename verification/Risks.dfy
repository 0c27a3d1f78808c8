/** How far reported successes can be trusted. A retry is skipped, and reported as a success, over a row that
    looked like the result all along. That does no harm exactly if every path the plan is to change can also
    be changed by an action that is not at risk. */
module Risks {
  import opened Trees
  import opened Actions
  import opened Settling
  import opened FileIndex
  import opened Planner
  import opened Convergence
  import opened Execution
  import opened Retries

  ghost predicate SureLocally(i: Index, plan: seq<Action>, p: Path) {
    exists a :: a in plan && !AtRisk(i, a) && LocalTarget(a, p)
  }

  ghost predicate SureRemotely(i: Index, plan: seq<Action>, p: Path) {
    exists a :: a in plan && !AtRisk(i, a) && RemoteTarget(a, p)
  }

  /** Every path that the plan is to change, clashes aside, can be changed by an action that is not at risk. */
  ghost predicate RisksHarmless(task: Task, l: Tree, r: Tree, i: Index, plan: seq<Action>) {
    forall p :: !ClashAt(l, r, p) ==>
      && (At(l, p) != At(Target(task, l, r, plan), p) ==> SureLocally(i, plan, p))
      && (At(r, p) != At(Target(task, l, r, plan), p) ==> SureRemotely(i, plan, p))
  }

  /** The remote side of a directory that the remote has already. */
  predicate Idle(r: Tree, a: Action) {
    a.CreateDirRemote? && IsDir(At(r, a.path))
  }

  /** It is answerable only for directories that stay as they are. */
  lemma IdleChangesNothing(task: Task, l: Tree, r: Tree, i: Index, plan: seq<Action>, a: Action, p: Path)
    requires Setting(task, l, r, i, plan) && task.policy != KeepBoth && a in plan && Idle(r, a) && RemoteTarget(a, p)
    requires !ClashAt(l, r, p)
    ensures At(r, p) == At(Target(task, l, r, plan), p)
  {
    PlannedBecause(task, l, r, i, plan, a);
    assert p != a.path ==> Inside(a.path, p);
    assert IsDir(At(l, p)) && IsDir(At(r, p));
    GoneOf(task, l, r, i, plan, p);
  }

  lemma ChangedIsSureRemotely(task: Task, l: Tree, r: Tree, i: Index, plan: seq<Action>, u: Tree, p: Path)
    requires Setting(task, l, r, i, plan) && task.policy != KeepBoth && !ClashAt(l, r, p)
    requires FinalTree(task, false, l, r, plan, u) && u == Target(task, l, r, plan) && At(r, p) != At(u, p)
    requires forall a :: a in plan && AtRisk(i, a) ==> Idle(r, a)
    ensures SureRemotely(i, plan, p)
  {
    var a := ReachesRemote(task, l, r, i, plan, u, p);
    if AtRisk(i, a) {
      IdleChangesNothing(task, l, r, i, plan, a, p);
    }
  }

  /** Risks are harmless where only the re-creation of existing remote directories is at risk. */
  lemma IdleIsHarmless(task: Task, l: Tree, r: Tree, i: Index, plan: seq<Action>)
    requires Setting(task, l, r, i, plan) && task.policy != KeepBoth
    requires forall a :: a in plan && AtRisk(i, a) ==> Idle(r, a)
    ensures RisksHarmless(task, l, r, i, plan)
  {
    var t := FinalTreeExists(task, true, l, r, i, plan);
    var u := FinalTreeExists(task, false, l, r, i, plan);
    forall p | !ClashAt(l, r, p) && At(l, p) != At(t, p) ensures SureLocally(i, plan, p) {
      var a := ReachesLocal(task, l, r, i, plan, t, p);
      assert !a.CreateDirRemote?;
    }
    forall p | !ClashAt(l, r, p) && At(r, p) != At(u, p) ensures SureRemotely(i, plan, p) {
      ChangedIsSureRemotely(task, l, r, i, plan, u, p);
    }
  }

  // ---- harmless risks suffice ---------------------------------------------------------------------

  ghost predicate AllReported(s: Store, plan: seq<Action>, tries: seq<Try>) {
    DrawnFrom(plan, tries) && forall a :: a in plan ==> EverReported(s, tries, a)
  }

  /** What is reported and not at risk has taken effect. */
  lemma ReportedDelivered(task: Task, s: Store, plan: seq<Action>, tries: seq<Try>)
    requires Setting(task, s.sides.local, s.sides.remote, s.index, plan) && task.policy != KeepBoth
    requires AllReported(s, plan, tries) && RisksHarmless(task, s.sides.local, s.sides.remote, s.index, plan)
    ensures Within(plan, Performed(s, tries))
    ensures Delivered(task, s.sides.local, s.sides.remote, plan, Performed(s, tries))
  {
    var acts := Performed(s, tries);
    assert Sides(s.sides.local, s.sides.remote) == s.sides;
    forall a | a in plan && !AtRisk(s.index, a) ensures TookEffect(acts, s.sides, a) {
      ReportedLanded(task, s, plan, tries, a);
      LandedIsEffect(s, tries, a);
    }
    forall a | a in acts ensures a in plan {
      PerformedFrom(s, tries, a);
    }
  }

  /** If the risks are harmless, it is enough that each planned action was once reported as a success. */
  lemma ReportedConvergeExactly(task: Task, s: Store, plan: seq<Action>, tries: seq<Try>)
    requires Setting(task, s.sides.local, s.sides.remote, s.index, plan) && task.policy != KeepBoth
    requires AllReported(s, plan, tries) && RisksHarmless(task, s.sides.local, s.sides.remote, s.index, plan)
    ensures AfterTries(s, tries).sides.local == AfterTries(s, tries).sides.remote <==>
            && NoClash(s.sides.local, s.sides.remote) && NothingKeptUnderDeletes(s.sides.remote, plan)
            && MovesBeforeDeletes(Performed(s, tries))
  {
    TriesPerform(s, tries);
    ReportedDelivered(task, s, plan, tries);
    assert Sides(s.sides.local, s.sides.remote) == s.sides;
    DeliveredConvergesExactly(task, s.sides.local, s.sides.remote, s.index, plan, Performed(s, tries));
  }

  // ---- and are needed -----------------------------------------------------------------------------

  /** Those of the plan's first n actions that are not at risk, in the planner's order. */
  function Sure(i: Index, plan: seq<Action>, n: nat): seq<Action>
    requires n <= |plan|
  {
    if n == 0 then [] else Sure(i, plan, n - 1) + if AtRisk(i, plan[n - 1]) then [] else [plan[n - 1]]
  }

  lemma {:induction false} SureAre(i: Index, plan: seq<Action>, n: nat)
    requires n <= |plan|
    ensures forall a :: a in Sure(i, plan, n) <==> a in plan[..n] && !AtRisk(i, a)
  {
    if n > 0 {
      SureAre(i, plan, n - 1);
      assert plan[..n] == plan[..n - 1] + [plan[n - 1]];
    }
  }

  lemma {:induction false} SureLead(i: Index, plan: seq<Action>, n: nat)
    requires MovesLead(plan) && n <= |plan|
    ensures MovesLead(Sure(i, plan, n))
  {
    if n > 0 {
      var front := Sure(i, plan, n - 1);
      SureLead(i, plan, n - 1);
      SureAre(i, plan, n - 1);
      if plan[n - 1].IsMove() {
        forall k | 0 <= k < |front| ensures front[k].IsMove() {
          assert front[k] in front;
          var j :| 0 <= j < n - 1 && plan[..n - 1][j] == front[k];
        }
      }
    }
  }

  function NextTries(i: Index, a: Action): seq<Try> {
    if AtRisk(i, a) then [Try(a, 0, LostBefore), Try(a, 1, Healthy)] else [Try(a, 0, Healthy)]
  }

  /** The attempts at the plan's first n actions that do least: over a row at risk the first is lost, and the
      retry is skipped; every other action is attempted once. */
  function Laziest(i: Index, plan: seq<Action>, n: nat): seq<Try>
    requires n <= |plan|
  {
    if n == 0 then [] else Laziest(i, plan, n - 1) + NextTries(i, plan[n - 1])
  }

  lemma {:induction false} LaziestDrawn(i: Index, plan: seq<Action>, n: nat)
    requires n <= |plan|
    ensures DrawnFrom(plan[..n], Laziest(i, plan, n)) && DrawnFrom(plan, Laziest(i, plan, n))
  {
    if n > 0 {
      LaziestDrawn(i, plan, n - 1);
      assert plan[..n] == plan[..n - 1] + [plan[n - 1]];
    }
  }

  lemma NotLanded(s: Store, plan: seq<Action>, tries: seq<Try>, a: Action)
    requires DrawnFrom(plan, tries) && a !in plan
    ensures !Landed(s, tries, a)
  {
    forall k | 0 <= k < |tries| ensures tries[k].action != a {
      assert tries[k] in tries;
    }
  }

  /** Before its first attempt an action's row is as at the start. */
  lemma RowBefore(task: Task, s: Store, plan: seq<Action>, n: nat)
    requires Setting(task, s.sides.local, s.sides.remote, s.index, plan) && task.policy != KeepBoth
    requires NoRepeats(plan) && n < |plan|
    ensures var j, p := AfterTries(s, Laziest(s.index, plan, n)).index, plan[n].path;
            p != [] && !IsConflict(plan[n]) && (p in j <==> p in s.index) && Row(j, p) == Row(s.index, p)
  {
    var a, tries := plan[n], Laziest(s.index, plan, n);
    LaziestDrawn(s.index, plan, n);
    NotLanded(s, plan[..n], tries, a);
    PlannedPath(task, s.sides.local, s.sides.remote, s.index, plan, a);
    if !a.IsMove() { PlannedBecause(task, s.sides.local, s.sides.remote, s.index, plan, a); }
    RowUntilLanded(task, s.sides.local, s.sides.remote, s.index, plan, s, tries, a);
  }

  lemma {:induction false} PerformedBoth(s: Store, g: seq<Try>, h: seq<Try>)
    ensures Performed(s, g + h) == Performed(s, g) + Performed(AfterTries(s, g), h)
  {
    if h == [] {
      assert g + h == g;
    } else {
      var n := |h| - 1;
      assert (g + h)[..|g| + n] == g + h[..n] && (g + h)[|g| + n] == h[n];
      PerformedBoth(s, g, h[..n]);
      AfterBoth(s, g, h[..n]);
    }
  }

  /** A plan in a good setting, and the world of its run. */
  ghost predicate GoodPlan(task: Task, s: Store, plan: seq<Action>) {
    && Setting(task, s.sides.local, s.sides.remote, s.index, plan) && task.policy != KeepBoth
    && NoRepeats(plan) && MovesLead(plan)
    && NoClash(s.sides.local, s.sides.remote) && NothingKeptUnderDeletes(s.sides.remote, plan)
  }

  ghost function WorldOf(task: Task, s: Store, plan: seq<Action>): World {
    var t := Target(task, s.sides.local, s.sides.remote, plan);
    World(s.sides.local, s.sides.remote, t, t)
  }

  lemma WithinReady(task: Task, s: Store, plan: seq<Action>, acts: seq<Action>)
    requires GoodPlan(task, s, plan) && Within(plan, acts) && MovesLead(acts)
    ensures AllSound(WorldOf(task, s, plan), acts) && MovesReady(acts) && MovesBeforeDeletes(acts)
  {
    TargetWorld(task, s.sides.local, s.sides.remote, s.index, plan);
    forall k | 0 <= k < |acts| ensures Sound(WorldOf(task, s, plan), acts[k]) {
      assert acts[k] in acts;
      ActionSound(task, s.sides.local, s.sides.remote, s.index, plan, WorldOf(task, s, plan), acts[k]);
    }
    assert MovesBeforeDeletes(acts);
    ScheduleReady(task, s.sides.local, s.sides.remote, s.index, plan, acts);
  }

  lemma SkippedTwice(st: Store, a: Action)
    requires a.path != [] && !IsConflict(a) && AtRisk(st.index, a)
    ensures var two := [Try(a, 0, LostBefore), Try(a, 1, Healthy)]; Performed(st, two) == [] && EverReported(st, two, a)
  {
    LossySuccess(st, a, Healthy);
    var two := [Try(a, 0, LostBefore), Try(a, 1, Healthy)];
    assert two[..1] == [two[0]] && [two[0]][..0] == [];
    assert Performed(st, [two[0]]) == [] && AfterTries(st, [two[0]]) == st;
    assert two[1].action == a && Reported(st, two, 1);
  }

  lemma DoneOnce(st: Store, a: Action)
    requires Apply(a, st.sides).Done?
    ensures var one := [Try(a, 0, Healthy)]; Performed(st, one) == [a] && EverReported(st, one, a)
  {
    var one := [Try(a, 0, Healthy)];
    assert one[..0] == [];
    assert one[0].action == a && Reported(st, one, 0);
  }

  lemma NextSureDone(task: Task, s: Store, plan: seq<Action>, m: nat)
    requires GoodPlan(task, s, plan) && m < |plan| && !AtRisk(s.index, plan[m]) && DoneTo(s, plan, m)
    ensures Apply(plan[m], AfterTries(s, Laziest(s.index, plan, m)).sides).Done?
  {
    var a, front := plan[m], Sure(s.index, plan, m);
    assert front + [a] == Sure(s.index, plan, m + 1);
    SureAre(s.index, plan, m);
    SureAre(s.index, plan, m + 1);
    SureLead(s.index, plan, m + 1);
    WithinReady(task, s, plan, front + [a]);
    TriesPerform(s, Laziest(s.index, plan, m));
    assert a !in plan[..m];
    NextTakesEffect(WorldOf(task, s, plan), front, a);
    assert Sides(s.sides.local, s.sides.remote) == s.sides;
  }

  /** The first n actions' attempts perform those of them that are not at risk. */
  ghost predicate DoneTo(s: Store, plan: seq<Action>, n: nat)
    requires n <= |plan|
  {
    Performed(s, Laziest(s.index, plan, n)) == Sure(s.index, plan, n)
  }

  /** The attempts at the next action report it, and perform it unless it is at risk. */
  ghost predicate NextDoes(s: Store, plan: seq<Action>, m: nat)
    requires m < |plan|
  {
    var st, next := AfterTries(s, Laziest(s.index, plan, m)), NextTries(s.index, plan[m]);
    && Performed(st, next) == (if AtRisk(s.index, plan[m]) then [] else [plan[m]])
    && EverReported(st, next, plan[m])
  }

  lemma NextReported(task: Task, s: Store, plan: seq<Action>, m: nat)
    requires GoodPlan(task, s, plan) && m < |plan| && DoneTo(s, plan, m)
    ensures NextDoes(s, plan, m)
  {
    RowBefore(task, s, plan, m);
    var st := AfterTries(s, Laziest(s.index, plan, m));
    if AtRisk(s.index, plan[m]) {
      SkippedTwice(st, plan[m]);
    } else {
      NextSureDone(task, s, plan, m);
      DoneOnce(st, plan[m]);
    }
  }

  lemma LaziestNext(i: Index, plan: seq<Action>, m: nat, n: nat)
    requires m + 1 == n <= |plan|
    ensures Laziest(i, plan, n) == Laziest(i, plan, m) + NextTries(i, plan[m])
    ensures Sure(i, plan, n) == Sure(i, plan, m) + if AtRisk(i, plan[m]) then [] else [plan[m]]
  {
  }

  lemma NextDone(s: Store, plan: seq<Action>, m: nat, n: nat)
    requires m + 1 == n <= |plan| && NextDoes(s, plan, m) && DoneTo(s, plan, m)
    ensures DoneTo(s, plan, n)
  {
    LaziestNext(s.index, plan, m, n);
    PerformedBoth(s, Laziest(s.index, plan, m), NextTries(s.index, plan[m]));
  }

  /** They perform the actions that are not at risk. */
  lemma {:induction false} LaziestPerform(task: Task, s: Store, plan: seq<Action>, n: nat)
    requires GoodPlan(task, s, plan) && n <= |plan|
    ensures DoneTo(s, plan, n)
    decreases n
  {
    if n > 0 {
      var m := n - 1;
      LaziestPerform(task, s, plan, m);
      NextReported(task, s, plan, m);
      NextDone(s, plan, m, n);
    }
  }

  lemma {:induction false} LaziestGrows(i: Index, plan: seq<Action>, m: nat, n: nat)
    requires m <= n <= |plan|
    ensures Laziest(i, plan, m) <= Laziest(i, plan, n)
    decreases n
  {
    if m < n {
      LaziestGrows(i, plan, m, n - 1);
    }
  }

  lemma ReportedWithin(s: Store, front: seq<Try>, next: seq<Try>, all: seq<Try>, a: Action)
    requires front + next <= all && EverReported(AfterTries(s, front), next, a)
    ensures EverReported(s, all, a)
  {
    var upTo, rest := front + next, all[|front + next|..];
    ReportedInBoth(s, front, next, a);
    ReportedInBoth(s, upTo, rest, a);
    assert all == upTo + rest;
  }

  /** And they report every action. */
  lemma LaziestReport(task: Task, s: Store, plan: seq<Action>, m: nat)
    requires GoodPlan(task, s, plan) && m < |plan|
    ensures EverReported(s, Laziest(s.index, plan, |plan|), plan[m])
  {
    LaziestPerform(task, s, plan, m);
    NextReported(task, s, plan, m);
    var n := m + 1;
    LaziestNext(s.index, plan, m, n);
    LaziestGrows(s.index, plan, n, |plan|);
    ReportedWithin(s, Laziest(s.index, plan, m), NextTries(s.index, plan[m]), Laziest(s.index, plan, |plan|), plan[m]);
  }

  /** A path that no performed action can change is as before. */
  lemma {:induction false} UnreachedLocal(acts: seq<Action>, s: Sides, p: Path)
    requires forall a :: a in acts ==> !LocalTarget(a, p)
    ensures At(Perform(acts, s).local, p) == At(s.local, p)
  {
    if acts != [] {
      var n := |acts| - 1;
      assert acts[n] in acts;
      UnreachedLocal(acts[..n], s, p);
      LocalChange(acts[n], Perform(acts[..n], s), p);
    }
  }

  lemma {:induction false} UnreachedRemote(acts: seq<Action>, s: Sides, p: Path)
    requires forall a :: a in acts ==> !RemoteTarget(a, p)
    ensures At(Perform(acts, s).remote, p) == At(s.remote, p)
  {
    if acts != [] {
      var n := |acts| - 1;
      assert acts[n] in acts;
      UnreachedRemote(acts[..n], s, p);
      RemoteChange(acts[n], Perform(acts[..n], s), p);
    }
  }

  /** If a path to be changed is left to actions at risk, performing the others leaves the sides apart. */
  lemma SureFallsShort(task: Task, s: Store, plan: seq<Action>, p: Path)
    requires GoodPlan(task, s, plan)
    requires var t := Target(task, s.sides.local, s.sides.remote, plan);
             || (At(s.sides.local, p) != At(t, p) && !SureLocally(s.index, plan, p))
             || (At(s.sides.remote, p) != At(t, p) && !SureRemotely(s.index, plan, p))
    ensures var e := Perform(Sure(s.index, plan, |plan|), s.sides); At(e.local, p) != At(e.remote, p)
  {
    var l, r, acts := s.sides.local, s.sides.remote, Sure(s.index, plan, |plan|);
    var w, e := WorldOf(task, s, plan), Perform(acts, s.sides);
    SureAre(s.index, plan, |plan|);
    assert plan[..|plan|] == plan;
    SureLead(s.index, plan, |plan|);
    WithinReady(task, s, plan, acts);
    PerformProgresses(w, acts);
    assert Sides(l, r) == s.sides;
    assert BetweenAt(l, w.fl, e.local, p) && BetweenAt(r, w.fr, e.remote, p);
    if !SureLocally(s.index, plan, p) { UnreachedLocal(acts, s.sides, p); }
    if !SureRemotely(s.index, plan, p) { UnreachedRemote(acts, s.sides, p); }
    GoneOf(task, l, r, s.index, plan, p);
    assert At(l, p) == At(r, p) ==> At(l, p) == At(w.fl, p);
  }

  /** Exactly which plans can be trusted to their reports: in a good setting, every interleaving of attempts
      that reports each planned action as a success, and performs no move late, ends in equal trees, if and
      only if the risks are harmless. */
  lemma RisksExactly(task: Task, s: Store, plan: seq<Action>)
    requires GoodPlan(task, s, plan)
    ensures RisksHarmless(task, s.sides.local, s.sides.remote, s.index, plan) <==>
            forall tries :: AllReported(s, plan, tries) && MovesBeforeDeletes(Performed(s, tries)) ==>
              AfterTries(s, tries).sides.local == AfterTries(s, tries).sides.remote
  {
    if RisksHarmless(task, s.sides.local, s.sides.remote, s.index, plan) {
      forall tries | AllReported(s, plan, tries) && MovesBeforeDeletes(Performed(s, tries))
        ensures AfterTries(s, tries).sides.local == AfterTries(s, tries).sides.remote
      {
        ReportedConvergeExactly(task, s, plan, tries);
      }
    } else {
      var tries := LaziestFallsShort(task, s, plan);
    }
  }

  lemma LaziestFallsShort(task: Task, s: Store, plan: seq<Action>) returns (tries: seq<Try>)
    requires GoodPlan(task, s, plan) && !RisksHarmless(task, s.sides.local, s.sides.remote, s.index, plan)
    ensures AllReported(s, plan, tries) && MovesBeforeDeletes(Performed(s, tries))
    ensures AfterTries(s, tries).sides.local != AfterTries(s, tries).sides.remote
  {
    tries := Laziest(s.index, plan, |plan|);
    LaziestDrawn(s.index, plan, |plan|);
    LaziestPerform(task, s, plan, |plan|);
    forall a | a in plan ensures EverReported(s, tries, a) {
      var k :| 0 <= k < |plan| && plan[k] == a;
      LaziestReport(task, s, plan, k);
    }
    SureAre(s.index, plan, |plan|);
    assert plan[..|plan|] == plan;
    SureLead(s.index, plan, |plan|);
    WithinReady(task, s, plan, Sure(s.index, plan, |plan|));
    TriesPerform(s, tries);
    var t := Target(task, s.sides.local, s.sides.remote, plan);
    var p :| || (At(s.sides.local, p) != At(t, p) && !SureLocally(s.index, plan, p))
             || (At(s.sides.remote, p) != At(t, p) && !SureRemotely(s.index, plan, p));
    SureFallsShort(task, s, plan, p);
  }
}
