/** How many active pods one reconcile of a BroadcastJob can bring about. The counter that limits its creations is
    lowered for every pod it deletes, active or not, so it can stand below the number of active pods. */
module BroadcastJobOvershoot {
  import opened Prelude
  import opened Machines
  import opened BroadcastJobProtocol

  /** The reconcile has its deletions behind it, or is over. */
  predicate DoneDeleting(c: Controller) {
    c.Idle? || c.Creating? || (c.Deleting? && c.toDelete == {})
  }

  /** The pods being created, and those there still is room for. */
  function Room(c: Controller, parallelism: int): int {
    match c
    case Deleting(_, _, active, rest) => if active < parallelism then Min(parallelism - active, |rest|) else 0
    case Creating(todo, inflight, budget) => |inflight| + Min(budget, |todo|)
    case _ => 0
  }

  ghost function Reach(s: State): int { |ActivePods(s)| + Room(s.ctl, s.parallelism) }

  lemma CreationKeepsReach(s: State, step: Step)
    requires s.ctl.Creating? && Enabled(s, step) && (step.CreateOk? || step.CreateLost?)
    ensures Reach(Fire(s, step)) == Reach(s)
  {
    ActiveAfter(s, step);
    AddOne(s.ctl.inflight, step.n);
  }

  lemma ExpectingKeepsReach(s: State, n: NodeName)
    requires s.ctl.Creating? && Enabled(s, Expect(n))
    ensures Reach(Fire(s, Expect(n))) <= Reach(s)
    ensures n !in s.ctl.inflight ==> Reach(Fire(s, Expect(n))) == Reach(s)
  {
    ActiveAfter(s, Expect(n));
    AddOne(s.ctl.inflight, n);
    AddOne(s.ctl.todo, n);
  }

  lemma OtherStepKeepsRoom(s: State, step: Step)
    requires DoneDeleting(s.ctl) && Enabled(s, step)
    requires !step.Start? && !step.CreateOk? && !step.CreateLost? && !step.Expect?
    ensures Room(Fire(s, step).ctl, s.parallelism) <= Room(s.ctl, s.parallelism)
  {
    if step.CreateFails? {
      AddOne(s.ctl.inflight, step.n);
    }
  }

  lemma ReachKept(s: State, step: Step)
    requires DoneDeleting(s.ctl) && Enabled(s, step) && !step.Start?
    ensures var t := Fire(s, step); DoneDeleting(t.ctl) && Reach(t) <= Reach(s) && t.parallelism == s.parallelism
  {
    if step.CreateOk? || step.CreateLost? {
      CreationKeepsReach(s, step);
    } else if step.Expect? {
      ExpectingKeepsReach(s, step.n);
    } else {
      ActiveShrinks(s, step);
      OtherStepKeepsRoom(s, step);
    }
  }

  /** However the reconcile goes on, lost replies included, it does not get beyond its reach ... */
  lemma {:induction false} WithinReach(s: State, steps: seq<Step>, t: State)
    requires DoneDeleting(s.ctl) && Runs(s, steps, t) && SameReconcile(steps)
    ensures |ActivePods(t)| <= Reach(s) && t.parallelism == s.parallelism
    decreases |steps|
  {
    if steps != [] {
      ReachKept(s, steps[0]);
      WithinReach(Fire(s, steps[0]), steps[1..], t);
    }
  }

  lemma {:induction false} NewId(ids: set<PodId>) returns (id: PodId)
    ensures forall x :: x in ids ==> x < id
  {
    id := 0;
    if ids != {} {
      var x :| x in ids;
      var y := NewId(ids - {x});
      id := if x < y then y else x + 1;
      assert forall z :: z in ids ==> z == x || z in ids - {x};
    }
  }

  function Work(c: Controller): int
    requires c.Creating?
  {
    |c.inflight| + 2 * Min(c.budget, |c.todo|)
  }

  /** As long as there is room, a creation can go on. */
  lemma NextCreation(s: State) returns (step: Step)
    requires s.ctl.Creating? && Room(s.ctl, s.parallelism) > 0
    ensures Enabled(s, step) && !step.Start?
    ensures var t := Fire(s, step); t.ctl.Creating? && Work(t.ctl) < Work(s.ctl) && Reach(t) == Reach(s)
  {
    if s.ctl.inflight != {} {
      var n := SomeElement(s.ctl.inflight);
      var id := NewId(s.pods.Keys);
      step := CreateOk(n, id);
      CreationKeepsReach(s, step);
      AddOne(s.ctl.inflight, n);
    } else {
      var n := SomeElement(s.ctl.todo);
      step := Expect(n);
      ExpectingKeepsReach(s, n);
      AddOne(s.ctl.todo, n);
    }
  }

  lemma {:induction false} CreationsFill(s: State) returns (steps: seq<Step>, t: State)
    requires s.ctl.Creating?
    ensures Runs(s, steps, t) && SameReconcile(steps) && |ActivePods(t)| == Reach(s)
    decreases Work(s.ctl)
  {
    if Room(s.ctl, s.parallelism) == 0 {
      return [], s;
    }
    var step := NextCreation(s);
    var rest;
    rest, t := CreationsFill(Fire(s, step));
    RunPrepends(Fire, s, step, rest, t);
    steps := [step] + rest;
  }

  /** ... and it can get that far. */
  lemma ReachAttained(s: State) returns (steps: seq<Step>, t: State)
    requires s.ctl.Deleting? && s.ctl.toDelete == {}
    ensures Runs(s, steps, t) && SameReconcile(steps) && |ActivePods(t)| == Reach(s)
  {
    if s.ctl.active >= s.parallelism {
      return [], s;
    }
    BeginningKeepsReach(s);
    var rest;
    rest, t := CreationsFill(Fire(s, BeginCreating));
    RunPrepends(Fire, s, BeginCreating, rest, t);
    steps := [BeginCreating] + rest;
  }

  lemma BeginningKeepsReach(s: State)
    requires s.ctl.Deleting? && s.ctl.toDelete == {} && s.ctl.active < s.parallelism
    ensures Fire(s, BeginCreating).ctl.Creating? && Reach(Fire(s, BeginCreating)) == Reach(s)
  {
    ActiveAfter(s, BeginCreating);
  }

  /** Some continuation of the reconcile has more active pods than the job allows. */
  ghost predicate Overshoots(s: State) {
    exists steps, t :: Runs(s, steps, t) && SameReconcile(steps) && |ActivePods(t)| > s.parallelism
  }

  /** Before the create loop, for every state: the reconcile can exceed the parallelism if and only if it is exceeded
      already, or the counter stands below both the parallelism and the number of active pods while there are nodes
      enough. */
  lemma OvershootsIff(s: State)
    requires s.ctl.Deleting? && s.ctl.toDelete == {}
    ensures Overshoots(s) <==>
            || |ActivePods(s)| > s.parallelism
            || (&& s.ctl.active < s.parallelism && s.ctl.active < |ActivePods(s)|
                && |ActivePods(s)| + |s.ctl.rest| > s.parallelism)
  {
    var steps, t := ReachAttained(s);
    assert Reach(s) > s.parallelism ==> Overshoots(s);
    if Overshoots(s) {
      var steps', t' :| Runs(s, steps', t') && SameReconcile(steps') && |ActivePods(t')| > s.parallelism;
      WithinReach(s, steps', t');
    }
  }

  /** What the controller itself can see: if its list of active pods is right and within the parallelism, it overshoots
      if and only if its counter stands below the length of that list while there are nodes enough. */
  lemma OvershootsIffCounterLow(s: State)
    requires s.ctl.Deleting? && s.ctl.toDelete == {}
    requires s.ctl.live == ActivePods(s) && |s.ctl.live| <= s.parallelism
    ensures Overshoots(s) <==> s.ctl.active < |s.ctl.live| && |s.ctl.live| + |s.ctl.rest| > s.parallelism
  {
    OvershootsIff(s);
  }

  // ---------------------------------------------------------------------------------------------------------
  // How the counter comes to stand too low.

  /** From every settled state, a reconcile that deletes one pod which is no longer active starts more pods than the job
      allows, if there are nodes enough. */
  lemma DeletingFinishedPodExceedsParallelism(s: State, done: PodId, rest: set<NodeName>)
    returns (steps: seq<Step>, t: State)
    requires Settled(s) && rest !! ListedNodes(s) && |ActivePods(s)| + |rest| > s.parallelism
    requires done in s.pods && s.pods[done].Alive() && !s.pods[done].Active()
    ensures Runs(s, steps, t)
    ensures |ActivePods(t)| > s.parallelism
  {
    assert ListedActive(s) == ActivePods(s) && done in Listed(s);
    var first, mid := FinishedPodDeleted(s, done, rest);
    var second, u := ReachAttained(mid);
    RunsAppend(Fire, s, first, mid, second, u);
    steps, t := first + second, u;
  }

  /** The deletion succeeds, and the counter goes down although no active pod was lost. */
  lemma FinishedPodDeleted(s: State, done: PodId, rest: set<NodeName>) returns (steps: seq<Step>, t: State)
    requires s.ctl.Idle? && s.creates == {} && s.deletes == {}
    requires done in s.pods && done in Listed(s) && s.pods[done].Alive() && !s.pods[done].Active()
    requires rest !! ListedNodes(s)
    ensures Runs(s, steps, t)
    ensures t.ctl.Deleting? && t.ctl.toDelete == {} && t.ctl.rest == rest && t.ctl.active == |ListedActive(s)| - 1
    ensures t.parallelism == s.parallelism && ActivePods(t) == ActivePods(s)
  {
    var s1 := Fire(s, Start);
    assert ListedActive(s1) == ListedActive(s) && Listed(s1) == Listed(s) && ListedNodes(s1) == ListedNodes(s);
    var s2 := Fire(s1, List(rest, {done}));
    t := Fire(s2, DeleteOk(done));
    steps := [Start, List(rest, {done}), DeleteOk(done)];
    RunThrough(Fire, [s, s1, s2, t], steps, 0);
    assert steps[0..] == steps;
    ActiveAfter(s, Start);
    ActiveAfter(s1, List(rest, {done}));
    ActiveAfter(s2, DeleteOk(done));
  }
}
