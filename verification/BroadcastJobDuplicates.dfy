/** Two pods of a BroadcastJob on one node. A create call that fails although the pod was stored (a timeout, say) is
    observed at once, so the pod is not waited for, and the next reconcile may list a cache that does not show it. */
module BroadcastJobDuplicates {
  import opened Prelude
  import opened Machines
  import opened BroadcastJobProtocol
  import opened BroadcastJobOvershoot

  /** A whole reconcile that wants a pod on node n and gets an error although the pod was stored: when it is over,
      nothing is expected and the cache knows nothing. */
  lemma LostReconcile(s: State, n: NodeName, id: PodId) returns (steps: seq<Step>, t: State)
    requires s.ctl.Idle? && s.creates == {} && s.deletes == {}
    requires n !in ListedNodes(s) && |ListedActive(s)| < s.parallelism
    requires id !in s.pods && s.seen <= s.now
    ensures Runs(s, steps, t)
    ensures t == s.(pods := s.pods[id := Life(n, s.now, None, None)], now := s.now + 1, ctl := Checked)
  {
    var first, s1 := PodWanted(s, n);
    var s2 := Fire(s1, CreateLost(n, id));
    assert s2.creates == {} && s2.ctl.inflight == {};
    var s3 := Fire(s2, Finish);
    t := Fire(s3, Start);
    var second := [CreateLost(n, id), Finish, Start];
    RunThrough(Fire, [s1, s2, s3, t], second, 0);
    assert second[0..] == second;
    RunsAppend(Fire, s, first, s1, second, t);
    steps := first + second;
  }

  /** All lists of the run are taken from a cache that covers the existing pods. */
  ghost predicate CoveredRun(s: State, steps: seq<Step>)
    decreases |steps|
  {
    steps != [] ==>
      && Enabled(s, steps[0])
      && (steps[0].List? ==> Covered(s))
      && CoveredRun(Fire(s, steps[0]), steps[1..])
  }

  /** With lost replies, a cache that covers the existing pods whenever it is listed is enough ... */
  lemma {:induction false} CoveredListsAreEnough(s: State, steps: seq<Step>, t: State)
    requires OnePodPerNode(s) && TargetsVacant(s)
    requires Runs(s, steps, t) && CoveredRun(s, steps)
    ensures OnePodPerNode(t)
    decreases |steps|
  {
    if steps != [] {
      OnePodPerNodeKept(s, steps[0]);
      TargetsVacantKept(s, steps[0]);
      CoveredListsAreEnough(Fire(s, steps[0]), steps[1..], t);
    }
  }

  // ---------------------------------------------------------------------------------------------------------
  // ... and when one list leads to a second pod.

  /** The pods whose deletion can still succeed in this reconcile; each success lowers the counter. */
  ghost function Deletable(s: State): set<PodId>
    requires s.ctl.Deleting?
  {
    set id | id in s.ctl.toDelete && id in s.pods && s.pods[id].Alive()
  }

  /** However the deletions end, the counter will not leave room for a pod. */
  ghost predicate NoRoom(s: State) {
    s.ctl.Deleting? && s.ctl.active - |Deletable(s)| >= s.parallelism
  }

  /** The reconcile goes on to create a pod only where there is none, or not at all. */
  ghost predicate Harmless(s: State) {
    OnePodPerNode(s) && !s.ctl.Checked? && (TargetsVacant(s) || NoRoom(s))
  }

  lemma QuietStepKeepsOnePod(s: State, step: Step)
    requires OnePodPerNode(s) && Enabled(s, step) && !step.CreateOk? && !step.CreateLost?
    ensures OnePodPerNode(Fire(s, step))
  {
  }

  lemma NoRoomKept(s: State, step: Step)
    requires NoRoom(s) && Enabled(s, step)
    ensures NoRoom(Fire(s, step)) || Fire(s, step).ctl.Idle?
  {
    var t := Fire(s, step);
    if step.DeleteOk? {
      assert Deletable(t) == Deletable(s) - {step.id};
      AddOne(Deletable(s), step.id);
    } else if t.ctl.Deleting? {
      SubsetSize(Deletable(t), Deletable(s));
    } else {
      assert s.ctl.toDelete == {} ==> Deletable(s) == {};
    }
  }

  lemma HarmlessKept(s: State, step: Step)
    requires Harmless(s) && Enabled(s, step) && !step.Start?
    ensures Harmless(Fire(s, step))
  {
    if TargetsVacant(s) {
      OnePodPerNodeKept(s, step);
      TargetsVacantKept(s, step);
    } else {
      QuietStepKeepsOnePod(s, step);
      NoRoomKept(s, step);
    }
  }

  lemma {:induction false} HarmlessForGood(s: State, steps: seq<Step>, t: State)
    requires Harmless(s) && Runs(s, steps, t) && SameReconcile(steps)
    ensures OnePodPerNode(t)
    decreases |steps|
  {
    if steps != [] {
      HarmlessKept(s, steps[0]);
      HarmlessForGood(Fire(s, steps[0]), steps[1..], t);
    }
  }

  /** All deletions that can succeed do. */
  lemma {:induction false} DeletionsDone(s: State, n: NodeName) returns (steps: seq<Step>, t: State)
    requires s.ctl.Deleting? && s.ctl.toDelete <= s.pods.Keys && !Vacant(s, n)
    ensures Runs(s, steps, t) && SameReconcile(steps)
    ensures t.ctl.Deleting? && t.ctl.toDelete == {} && t.ctl.rest == s.ctl.rest && t.parallelism == s.parallelism
    ensures t.ctl.active == s.ctl.active - |Deletable(s)| && !Vacant(t, n)
    decreases |s.ctl.toDelete|
  {
    if s.ctl.toDelete == {} {
      assert Deletable(s) == {};
      return [], s;
    }
    var step := NextDeletion(s, n);
    var rest;
    rest, t := DeletionsDone(Fire(s, step), n);
    RunPrepends(Fire, s, step, rest, t);
    steps := [step] + rest;
  }

  lemma NextDeletion(s: State, n: NodeName) returns (step: Step)
    requires s.ctl.Deleting? && s.ctl.toDelete <= s.pods.Keys && s.ctl.toDelete != {} && !Vacant(s, n)
    ensures Enabled(s, step) && !step.Start?
    ensures var t := Fire(s, step);
            && t.ctl.Deleting? && t.ctl.toDelete <= t.pods.Keys && |t.ctl.toDelete| < |s.ctl.toDelete|
            && t.ctl.rest == s.ctl.rest && t.parallelism == s.parallelism && !Vacant(t, n)
            && t.ctl.active - |Deletable(t)| == s.ctl.active - |Deletable(s)|
  {
    var id := SomeElement(s.ctl.toDelete);
    step := if s.pods[id].Alive() then DeleteOk(id) else DeleteFails(id);
    var t := Fire(s, step);
    AddOne(s.ctl.toDelete, id);
    AddOne(Deletable(s), id);
    assert Deletable(t) == Deletable(s) - {id};
    var p :| p in s.pods && s.pods[p].node == n && s.pods[p].Alive();
    assert t.pods[p].node == n && t.pods[p].Alive();
  }

  lemma SecondPod(s: State, n: NodeName) returns (steps: seq<Step>, t: State)
    requires s.ctl.Deleting? && s.ctl.toDelete == {} && s.ctl.active < s.parallelism
    requires n in s.ctl.rest && !Vacant(s, n)
    ensures Runs(s, steps, t) && SameReconcile(steps) && !OnePodPerNode(t)
  {
    var p :| p in s.pods && s.pods[p].node == n && s.pods[p].Alive();
    var id := NewId(s.pods.Keys);
    SubsetSize({n}, s.ctl.rest);
    var s1 := Fire(s, BeginCreating);
    var s2 := Fire(s1, Expect(n));
    t := Fire(s2, CreateOk(n, id));
    steps := [BeginCreating, Expect(n), CreateOk(n, id)];
    RunThrough(Fire, [s, s1, s2, t], steps, 0);
    assert steps[0..] == steps;
    assert t.pods[p].Alive() && t.pods[id].Alive() && t.pods[p].node == t.pods[id].node;
  }

  /** Some continuation of the reconcile has two pods on a node. */
  ghost predicate Duplicates(s: State) {
    exists steps, t :: Runs(s, steps, t) && SameReconcile(steps) && !OnePodPerNode(t)
  }

  /** A reconcile that has listed can lead to two pods on a node if and only if it takes a node for vacant that is not,
      and its counter, lowered for every pod whose deletion can succeed, leaves room. */
  lemma DuplicatesIff(s: State)
    requires s.ctl.Deleting? && s.ctl.toDelete <= s.pods.Keys && OnePodPerNode(s)
    ensures Duplicates(s) <==>
            && s.ctl.active - |Deletable(s)| < s.parallelism
            && exists n :: n in s.ctl.rest && !Vacant(s, n)
  {
    if n :| s.ctl.active - |Deletable(s)| < s.parallelism && n in s.ctl.rest && !Vacant(s, n) {
      var first, mid := DeletionsDone(s, n);
      var second, t := SecondPod(mid, n);
      RunsAppend(Fire, s, first, mid, second, t);
      assert Runs(s, first + second, t) && SameReconcile(first + second);
    } else {
      assert Harmless(s);
      forall steps, t | Runs(s, steps, t) && SameReconcile(steps)
        ensures OnePodPerNode(t)
      {
        HarmlessForGood(s, steps, t);
      }
    }
  }

  /** The pods of a set that exist. */
  ghost function Existing(s: State, ids: set<PodId>): set<PodId> {
    set id | id in ids && id in s.pods && s.pods[id].Alive()
  }

  /** For every list: it leads to two pods on a node if and only if it misses an existing pod on one of the nodes
      chosen, and there is room for a pod, or the deletions chosen make room. */
  lemma ListDuplicatesIff(s: State, rest: set<NodeName>, toDelete: set<PodId>)
    requires Enabled(s, List(rest, toDelete)) && OnePodPerNode(s)
    ensures Duplicates(Fire(s, List(rest, toDelete))) <==>
            && |ListedActive(s)| - |Existing(s, toDelete)| < s.parallelism
            && exists id :: id in s.pods && s.pods[id].Alive() && s.pods[id].node in rest
  {
    var t := Fire(s, List(rest, toDelete));
    DuplicatesIff(t);
    assert Deletable(t) == Existing(s, toDelete);
    if id :| id in s.pods && s.pods[id].Alive() && s.pods[id].node in rest {
      assert !Vacant(t, s.pods[id].node);
    }
  }

  /** So a list that misses an existing pod leads to a second pod on its node as soon as there is room. */
  lemma UncoveredListDuplicates(s: State, id: PodId, toDelete: set<PodId>) returns (steps: seq<Step>, t: State)
    requires s.ctl.Checked? && toDelete <= Listed(s)
    requires id in s.pods && s.pods[id].Alive() && s.pods[id].node !in ListedNodes(s)
    requires |ListedActive(s)| - |Existing(s, toDelete)| < s.parallelism
    ensures Runs(s, steps, t) && SameReconcile(steps)
    ensures !OnePodPerNode(t)
  {
    var n := s.pods[id].node;
    var list := List({n}, toDelete);
    var listed := Fire(s, list);
    assert Deletable(listed) == Existing(s, toDelete);
    assert !Vacant(listed, n);
    var first, mid := DeletionsDone(listed, n);
    var second, end := SecondPod(mid, n);
    RunsAppend(Fire, listed, first, mid, second, end);
    RunPrepends(Fire, s, list, first + second, end);
    steps, t := [list] + (first + second), end;
  }

  /** So from every settled state with a vacant node and room for one pod, one lost create is enough for a second pod
      on the same node. */
  lemma LostCreateDuplicates(s: State, n: NodeName, id: PodId) returns (steps: seq<Step>, t: State)
    requires Settled(s) && n !in ListedNodes(s) && |ListedActive(s)| < s.parallelism && id !in s.pods
    ensures Runs(s, steps, t)
    ensures !OnePodPerNode(t)
  {
    var first, mid := LostReconcile(s, n, id);
    assert ListedActive(mid) == ListedActive(s);
    assert Listed(mid) == Listed(s) && ListedNodes(mid) == ListedNodes(s);
    var second, u := UncoveredListDuplicates(mid, id, {});
    RunsAppend(Fire, s, first, mid, second, u);
    steps, t := first + second, u;
  }
}
