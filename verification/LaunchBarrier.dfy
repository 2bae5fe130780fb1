/** The container launch barrier: containers with a priority may start only when the key of their priority is in the
    barrier; the controller adds keys from the highest priority down while containers start and become ready. It
    works on snapshots of the pod and of the barrier that may be old. */
module LaunchBarrier {
  import opened Prelude
  import opened Machines
  import opened Sorting

  type ContainerName = string

  datatype Container = Container(name: ContainerName, priority: Option<int>)

  // ---------------------------------------------------------------------------------------------------------
  // The priorities still to be released.

  predicate Waiting(c: Container, ready: set<ContainerName>) {
    c.name !in ready && c.priority.Some?
  }

  /** The priorities of the containers that are not ready, in the order of the containers. */
  function WaitingPriorities(containers: seq<Container>, ready: set<ContainerName>): seq<int> {
    if containers == [] then []
    else
      var n := |containers| - 1;
      WaitingPriorities(containers[..n], ready)
      + if Waiting(containers[n], ready) then [containers[n].priority.value] else []
  }

  function AtMost(): (int, int) -> bool { (a, b) => a <= b }

  /** The sorted list of those priorities. */
  ghost predicate NextPriorities(containers: seq<Container>, ready: set<ContainerName>, next: seq<int>) {
    SortedBy(next, AtMost()) && multiset(next) == multiset(WaitingPriorities(containers, ready))
  }

  method FindNextPriorities(containers: seq<Container>, readyList: seq<ContainerName>) returns (priorities: seq<int>)
    ensures NextPriorities(containers, Elements(readyList), priorities)
  {
    var readySet: set<ContainerName> := {};
    for i := 0 to |readyList|
      invariant readySet == Elements(readyList[..i])
    {
      assert readyList[..i + 1] == readyList[..i] + [readyList[i]];
      readySet := readySet + {readyList[i]};
    }
    assert readyList[..|readyList|] == readyList;
    priorities := [];
    for i := 0 to |containers|
      invariant priorities == WaitingPriorities(containers[..i], readySet)
    {
      assert containers[..i + 1][..i] == containers[..i];
      var c := containers[i];
      if c.name in readySet {
        continue;
      }
      if c.priority == None {
        continue;
      }
      priorities := priorities + [c.priority.value];
    }
    assert containers[..|containers|] == containers;
    priorities := SortBy(priorities, AtMost());
  }

  /** One run of the handler on its snapshots: the priority it adds, if any, and whether it marks the pod as done. */
  datatype Decision = Decision(add: Option<int>, complete: bool)

  function Decide(next: seq<int>, barrier: set<int>): Decision {
    if next == [] || next[0] in barrier then Decision(None, true)
    else
      var highest := next[|next| - 1];
      Decision(if highest in barrier then None else Some(highest), highest == next[0])
  }

  /** On a snapshot of the barrier that holds every waiting priority above one that it holds: the handler is done
      exactly if every waiting priority is in the barrier or added now, and what it adds is the highest one, if
      missing. */
  lemma DoneIffNothingWaits(next: seq<int>, barrier: set<int>)
    requires SortedBy(next, AtMost())
    requires forall i, j :: 0 <= i < j < |next| && next[i] in barrier ==> next[j] in barrier
    ensures var d := Decide(next, barrier);
            && (d.complete <==> forall p :: p in next ==> p in barrier || d.add == Some(p))
            && (d.add.Some? <==> next != [] && next[|next| - 1] !in barrier)
            && (d.add.Some? ==> d.add.value in next && forall p :: p in next ==> p <= d.add.value)
  {
    if next != [] {
      assert next[0] in next && next[|next| - 1] in next;
    }
  }

  /** Does an event about the pod start a reconcile? */
  predicate ShouldEnqueue(completed: bool, containersReady: bool, next: seq<int>, barrier: set<int>) {
    !completed && !containersReady && next != [] && next[|next| - 1] !in barrier
  }

  /** Nothing starts a reconcile once the pod is marked as done or its containers are ready, or if nothing waits. */
  lemma NotEnqueued(completed: bool, containersReady: bool, next: seq<int>, barrier: set<int>)
    requires completed || containersReady || forall p :: p in next ==> p in barrier
    ensures !ShouldEnqueue(completed, containersReady, next, barrier)
  {
    if next != [] {
      var highest := next[|next| - 1];
      assert highest in next;
    }
  }

  lemma {:induction false} WaitingMembers(containers: seq<Container>, ready: set<ContainerName>, p: int)
    ensures p in WaitingPriorities(containers, ready)
            <==> exists c :: c in containers && Waiting(c, ready) && c.priority == Some(p)
  {
    if containers != [] {
      var n := |containers| - 1;
      WaitingMembers(containers[..n], ready, p);
      assert containers == containers[..n] + [containers[n]];
    }
  }

  /** The first and the last of the next priorities bound those of all waiting containers, and are among them. */
  lemma NextBounds(containers: seq<Container>, ready: set<ContainerName>, next: seq<int>, c: Container)
    requires NextPriorities(containers, ready, next) && c in containers && Waiting(c, ready)
    ensures next != [] && next[0] <= c.priority.value <= next[|next| - 1]
  {
    WaitingMembers(containers, ready, c.priority.value);
    PermutationMembers(next, WaitingPriorities(containers, ready), c.priority.value);
    var i :| 0 <= i < |next| && next[i] == c.priority.value;
  }

  lemma NextIsWaiting(containers: seq<Container>, ready: set<ContainerName>, next: seq<int>, k: nat)
    returns (c: Container)
    requires NextPriorities(containers, ready, next) && k < |next|
    ensures c in containers && Waiting(c, ready) && c.priority == Some(next[k])
  {
    WaitingMembers(containers, ready, next[k]);
    assert next[k] in next;
    PermutationMembers(next, WaitingPriorities(containers, ready), next[k]);
    c :| c in containers && Waiting(c, ready) && c.priority == Some(next[k]);
  }

  // ---------------------------------------------------------------------------------------------------------
  // The pod, the barrier and the controller over time.

  /** readies and barriers hold all values so far, the current ones last. */
  datatype State = State(
    containers: seq<Container>,
    readies: seq<set<ContainerName>>,
    barriers: seq<set<int>>,
    completed: bool
  ) {
    predicate WellFormed() { readies != [] && barriers != [] }

    function Ready(): set<ContainerName> requires WellFormed() { readies[|readies| - 1] }

    function Barrier(): set<int> requires WellFormed() { barriers[|barriers| - 1] }
  }

  datatype Step =
    | BecomesReady(c: Container)
    | BecomesUnready(c: Container)
    | Handle(podVersion: nat, barrierVersion: nat, next: seq<int>, interrupted: bool)

  predicate Released(s: State, c: Container)
    requires s.WellFormed()
  {
    c.priority.None? || c.priority.value in s.Barrier()
  }

  ghost predicate Enabled(s: State, step: Step) {
    && s.WellFormed()
    && match step
       // A container cannot even start before its key is in the barrier.
       case BecomesReady(c) => c in s.containers && Released(s, c)
       case BecomesUnready(c) => c in s.containers
       case Handle(pv, bv, next, _) =>
         pv < |s.readies| && bv < |s.barriers| && NextPriorities(s.containers, s.readies[pv], next)
  }

  ghost function Fire(s: State, step: Step): State
    requires Enabled(s, step)
  {
    match step
    case BecomesReady(c) => s.(readies := s.readies + [s.Ready() + {c.name}])
    case BecomesUnready(c) => s.(readies := s.readies + [s.Ready() - {c.name}])
    case Handle(pv, bv, next, interrupted) =>
      var d := Decide(next, s.barriers[bv]);
      s.(barriers := if d.add.Some? then s.barriers + [s.Barrier() + {d.add.value}] else s.barriers,
         completed := s.completed || (d.complete && !interrupted))
  }

  ghost predicate Initial(s: State) {
    && s.readies == [{}] && s.barriers == [{}] && !s.completed
    && UniqueNames(s.containers)
  }

  ghost predicate UniqueNames(containers: seq<Container>) {
    forall c, d :: c in containers && d in containers && c.name == d.name ==> c == d
  }

  ghost predicate Runs(s: State, steps: seq<Step>, t: State) { Run(Fire, s, steps, t) }

  /** The container has been ready at some moment up to now. */
  ghost predicate WasReady(s: State, c: Container) {
    exists k :: 0 <= k < |s.readies| && c.name in s.readies[k]
  }

  /** Keys come in order: while the key of a lower priority is in the barrier, every container of a strictly higher
      one has been ready before. */
  ghost predicate InOrder(s: State)
    requires s.WellFormed()
  {
    forall c, d :: c in s.containers && d in s.containers && c.priority.Some? && d.priority.Some?
                   && c.priority.value < d.priority.value && c.priority.value in s.Barrier()
      ==> WasReady(s, d)
  }

  /** The keys in the barrier are upward closed over the priorities of the pod's containers. */
  ghost predicate UpwardClosed(s: State)
    requires s.WellFormed()
  {
    forall c, d :: c in s.containers && d in s.containers && c.priority.Some? && d.priority.Some?
                   && c.priority.value < d.priority.value && c.priority.value in s.Barrier()
      ==> d.priority.value in s.Barrier()
  }

  ghost predicate AllReleased(s: State)
    requires s.WellFormed()
  {
    forall c :: c in s.containers ==> Released(s, c)
  }

  ghost predicate Inv(s: State) {
    && s.WellFormed() && UniqueNames(s.containers)
    && (forall k :: 0 <= k < |s.barriers| ==> s.barriers[k] <= s.Barrier())
    && (forall c :: c in s.containers && WasReady(s, c) ==> Released(s, c))
    && InOrder(s)
    && (s.completed ==> AllReleased(s))
  }

  lemma InOrderIsUpwardClosed(s: State)
    requires Inv(s)
    ensures UpwardClosed(s)
  {
  }

  lemma ReadinessKeepsInv(s: State, step: Step)
    requires Inv(s) && Enabled(s, step) && !step.Handle?
    ensures Inv(Fire(s, step))
  {
    var t := Fire(s, step);
    assert t.barriers == s.barriers;
    forall c | c in t.containers && WasReady(t, c)
      ensures Released(t, c)
    {
      var k :| 0 <= k < |t.readies| && c.name in t.readies[k];
      if k < |s.readies| {
        assert c.name in s.readies[k];
        assert WasReady(s, c);
      } else if step.BecomesReady? && c.name == step.c.name {
        assert c == step.c;
      } else {
        assert c.name in s.readies[|s.readies| - 1];
        assert WasReady(s, c);
      }
    }
    forall c | WasReady(s, c)
      ensures WasReady(t, c)
    {
      var k :| 0 <= k < |s.readies| && c.name in s.readies[k];
      assert c.name in t.readies[k];
    }
  }

  /** The handler's decision is sound even on old snapshots: what it adds has nothing unready above it, and it only
      declares the pod done when every key is there. */
  lemma DecisionSound(s: State, pv: nat, bv: nat, next: seq<int>)
    requires Inv(s) && Enabled(s, Handle(pv, bv, next, false))
    ensures var d := Decide(next, s.barriers[bv]);
            && (d.add.Some? ==>
                  forall c :: c in s.containers && c.priority.Some? && c.priority.value > d.add.value
                              ==> WasReady(s, c))
            && (d.complete ==> forall c :: c in s.containers && c.priority.Some? ==>
                  c.priority.value in s.Barrier() || c.priority == d.add)
  {
    var d := Decide(next, s.barriers[bv]);
    forall c | c in s.containers && c.priority.Some? && !WasReady(s, c)
      ensures next != [] && next[0] <= c.priority.value <= next[|next| - 1]
    {
      NextBounds(s.containers, s.readies[pv], next, c);
    }
    if d.complete && next != [] && next[0] in s.barriers[bv] {
      var low := NextIsWaiting(s.containers, s.readies[pv], next, 0);
      InOrderIsUpwardClosed(s);
    }
  }

  lemma HandleKeepsInv(s: State, pv: nat, bv: nat, next: seq<int>, interrupted: bool)
    requires Inv(s) && Enabled(s, Handle(pv, bv, next, interrupted))
    ensures Inv(Fire(s, Handle(pv, bv, next, interrupted)))
  {
    var t := Fire(s, Handle(pv, bv, next, interrupted));
    DecisionSound(s, pv, bv, next);
    assert s.Barrier() <= t.Barrier();
    forall c | c in s.containers
      ensures WasReady(t, c) <==> WasReady(s, c)
    {
    }
  }

  lemma {:induction false} RunKeepsInv(s: State, steps: seq<Step>, t: State)
    requires Inv(s) && Runs(s, steps, t)
    ensures Inv(t) && t.containers == s.containers
    decreases |steps|
  {
    if steps != [] {
      match steps[0] {
        case Handle(pv, bv, next, interrupted) => HandleKeepsInv(s, pv, bv, next, interrupted);
        case _ => ReadinessKeepsInv(s, steps[0]);
      }
      RunKeepsInv(Fire(s, steps[0]), steps[1..], t);
    }
  }

  /** Along every run, from however old snapshots: keys are released in order of priority, and a pod marked as done
      has no container that is still held back. */
  lemma BarrierOpensInOrder(s: State, steps: seq<Step>, t: State)
    requires Initial(s) && Runs(s, steps, t)
    ensures t.WellFormed() && InOrder(t) && UpwardClosed(t)
    ensures t.completed ==> AllReleased(t)
  {
    RunKeepsInv(s, steps, t);
    InOrderIsUpwardClosed(t);
  }

  // ---------------------------------------------------------------------------------------------------------
  // Progress.

  /** The priorities whose key is not in the barrier yet. */
  ghost function Missing(s: State): set<int>
    requires s.WellFormed()
  {
    (set c | c in s.containers && c.priority.Some? :: c.priority.value) - s.Barrier()
  }

  /** All containers that may run are ready. */
  ghost predicate ReleasedReady(s: State)
    requires s.WellFormed()
  {
    forall c :: c in s.containers && Released(s, c) ==> c.name in s.Ready()
  }

  ghost predicate ContainersReady(s: State)
    requires s.WellFormed()
  {
    forall c :: c in s.containers ==> c.name in s.Ready()
  }

  function FreshHandle(s: State, next: seq<int>): Step
    requires s.WellFormed()
  {
    Handle(|s.readies| - 1, |s.barriers| - 1, next, false)
  }

  /** Then some container is waiting, and the priorities to consider begin and end with a missing one. */
  lemma NextIsMissing(s: State, next: seq<int>)
    requires Inv(s) && ReleasedReady(s) && Missing(s) != {}
    requires NextPriorities(s.containers, s.Ready(), next)
    ensures next != [] && next[0] in Missing(s) && next[|next| - 1] in Missing(s)
    ensures !ContainersReady(s)
  {
    var p := SomeElement(Missing(s));
    var c :| c in s.containers && c.priority == Some(p);
    assert !Released(s, c);
    assert c.name in s.readies[|s.readies| - 1] ==> WasReady(s, c);
    assert Waiting(c, s.Ready());
    NextBounds(s.containers, s.Ready(), next, c);
    var high := NextIsWaiting(s.containers, s.Ready(), next, |next| - 1);
    var low := NextIsWaiting(s.containers, s.Ready(), next, 0);
    assert !Released(s, high) && !Released(s, low);
  }

  /** While a key is missing and everything released is ready, an event about the pod starts a reconcile, and that
      reconcile adds exactly one missing key; the last one also marks the pod as done. So the number of missing keys
      is a termination measure. */
  lemma HandleMakesProgress(s: State, next: seq<int>)
    requires Inv(s) && ReleasedReady(s) && Missing(s) != {}
    requires NextPriorities(s.containers, s.Ready(), next)
    ensures ShouldEnqueue(s.completed, ContainersReady(s), next, s.Barrier())
    ensures Enabled(s, FreshHandle(s, next))
    ensures var t := Fire(s, FreshHandle(s, next));
            && t.WellFormed()
            && Missing(t) == Missing(s) - {next[|next| - 1]} && next[|next| - 1] in Missing(s)
            && (Missing(t) == {} ==> t.completed)
  {
    NextIsMissing(s, next);
    KeyAdded(s, next);
  }

  /** The reconcile adds the highest waiting priority, and completes the pod if it is the only one. */
  lemma KeyAdded(s: State, next: seq<int>)
    requires s.WellFormed() && NextPriorities(s.containers, s.Ready(), next)
    requires next != [] && next[0] in Missing(s) && next[|next| - 1] in Missing(s)
    ensures var t := Fire(s, FreshHandle(s, next));
            && t.WellFormed()
            && Missing(t) == Missing(s) - {next[|next| - 1]}
            && (Missing(t) == {} ==> t.completed)
  {
    var p, t := next[|next| - 1], Fire(s, FreshHandle(s, next));
    assert t.containers == s.containers && t.Barrier() == s.Barrier() + {p};
    assert Missing(t) == Missing(s) - {p};
  }

  /** Once everything released is ready, events start reconciles exactly as long as a key is missing: enqueuing does
      not stop while a container is held back, and stops when none is. */
  lemma EnqueuedIffKeyMissing(s: State, next: seq<int>)
    requires Inv(s) && ReleasedReady(s) && NextPriorities(s.containers, s.Ready(), next)
    ensures ShouldEnqueue(s.completed, ContainersReady(s), next, s.Barrier()) <==> Missing(s) != {}
  {
    if Missing(s) != {} {
      HandleMakesProgress(s, next);
    } else if next != [] {
      var high := NextIsWaiting(s.containers, s.Ready(), next, |next| - 1);
      assert high.priority.value !in Missing(s);
    }
  }

  lemma {:induction false} ReleasedBecomeReady(s: State, k: nat) returns (steps: seq<Step>, t: State)
    requires Inv(s) && k <= |s.containers|
    requires forall i :: 0 <= i < k && Released(s, s.containers[i]) ==> s.containers[i].name in s.Ready()
    ensures Runs(s, steps, t) && Inv(t)
    ensures t.containers == s.containers && t.barriers == s.barriers && ReleasedReady(t)
    decreases |s.containers| - k
  {
    if k == |s.containers| {
      steps, t := [], s;
    } else if Released(s, s.containers[k]) {
      var step := BecomesReady(s.containers[k]);
      ReadinessKeepsInv(s, step);
      var rest, u := ReleasedBecomeReady(Fire(s, step), k + 1);
      steps, t := [step] + rest, u;
      assert steps[1..] == rest;
    } else {
      steps, t := ReleasedBecomeReady(s, k + 1);
    }
  }

  lemma OneIsReleased(s: State) returns (steps: seq<Step>, t: State)
    requires Inv(s) && Missing(s) != {}
    ensures Runs(s, steps, t) && Inv(t)
    ensures |Missing(t)| < |Missing(s)| && (Missing(t) == {} ==> t.completed)
  {
    var waits, ready := ReleasedBecomeReady(s, 0);
    assert Missing(ready) == Missing(s);
    var next := SortedExists(WaitingPriorities(ready.containers, ready.Ready()), AtMost());
    HandleMakesProgress(ready, next);
    var step := FreshHandle(ready, next);
    t := Fire(ready, step);
    HandleKeepsInv(ready, step.podVersion, step.barrierVersion, next, false);
    assert [step][1..] == [];
    assert Runs(ready, [step], t);
    RunsAppend(Fire, s, waits, ready, [step], t);
    steps := waits + [step];
  }

  /** From every reachable state with a key missing, containers becoming ready and reconciles that events do start
      release every container and mark the pod as done. */
  lemma {:induction false} EverythingIsReleased(s: State) returns (steps: seq<Step>, t: State)
    requires Inv(s) && Missing(s) != {}
    ensures Runs(s, steps, t)
    ensures t.WellFormed() && AllReleased(t) && t.completed
    decreases |Missing(s)|
  {
    var first, after := OneIsReleased(s);
    steps, t := first, after;
    if Missing(after) != {} {
      var rest, end := EverythingIsReleased(after);
      RunsAppend(Fire, s, first, after, rest, end);
      steps, t := first + rest, end;
    }
  }
}
