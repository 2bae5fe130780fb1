/** The computations inside one reconcile of a BroadcastJob: classifying the pods of the job, mapping nodes to pods,
    choosing nodes and pods to act on, and the create and delete loops. */
module BroadcastJobPods {
  import opened Prelude
  import SlowStart

  type NodeName = string

  const SLOW_START_INITIAL_BATCH_SIZE: nat := 1

  datatype PodPhase = Pending | Running | Succeeded | Failed

  datatype Pod = Pod(
    name: string,
    node: NodeName,
    phase: PodPhase,
    terminating: bool,
    restartOnFailure: bool,
    initRestarts: seq<nat>,
    restarts: seq<nat>
  ) {
    /** The general notion of an active pod, which disregards restarts. */
    predicate Alive() {
      phase != Succeeded && phase != Failed && !terminating
    }
  }

  // ---------------------------------------------------------------------------------------------------------
  // Classification.

  function Sum(xs: seq<nat>): nat {
    if xs == [] then 0 else Sum(xs[..|xs| - 1]) + xs[|xs| - 1]
  }

  lemma {:induction false} SumAdds(xs: seq<nat>, ys: seq<nat>)
    ensures Sum(xs + ys) == Sum(xs) + Sum(ys) && (|ys| == 1 ==> Sum(ys) == ys[0])
  {
    if ys == [] {
      assert xs + ys == xs;
    } else {
      var n := |ys| - 1;
      assert (xs + ys)[..|xs| + n] == xs + ys[..n];
      SumAdds(xs, ys[..n]);
    }
  }

  predicate RestartedTooOften(limit: int, pod: Pod) {
    pod.restartOnFailure && Sum(pod.initRestarts) + Sum(pod.restarts) > limit
  }

  method IsPodFailed(limit: int, pod: Pod) returns (failed: bool)
    ensures failed == RestartedTooOften(limit, pod)
  {
    if !pod.restartOnFailure {
      return false;
    }
    var restartCount := 0;
    for i := 0 to |pod.initRestarts|
      invariant restartCount == Sum(pod.initRestarts[..i])
    {
      assert pod.initRestarts[..i + 1][..i] == pod.initRestarts[..i];
      restartCount := restartCount + pod.initRestarts[i];
    }
    assert pod.initRestarts[..|pod.initRestarts|] == pod.initRestarts;
    for i := 0 to |pod.restarts|
      invariant restartCount == Sum(pod.initRestarts) + Sum(pod.restarts[..i])
    {
      assert pod.restarts[..i + 1][..i] == pod.restarts[..i];
      restartCount := restartCount + pod.restarts[i];
    }
    assert pod.restarts[..|pod.restarts|] == pod.restarts;
    return restartCount > limit;
  }

  datatype Class = ActivePod | FailedPod | SucceededPod | IgnoredPod

  function Classify(limit: int, pod: Pod): Class {
    if pod.phase == Succeeded then SucceededPod
    else if pod.phase == Failed then FailedPod
    else if pod.terminating then IgnoredPod
    else if RestartedTooOften(limit, pod) then FailedPod
    else ActivePod
  }

  /** The pods of one class, in list order. */
  function OfClass(limit: int, pods: seq<Pod>, c: Class): seq<Pod> {
    if pods == [] then []
    else
      var n := |pods| - 1;
      OfClass(limit, pods[..n], c) + if Classify(limit, pods[n]) == c then [pods[n]] else []
  }

  method FilterPods(limit: int, pods: seq<Pod>) returns (active: seq<Pod>, failed: seq<Pod>, succeeded: seq<Pod>)
    ensures active == OfClass(limit, pods, ActivePod)
    ensures failed == OfClass(limit, pods, FailedPod)
    ensures succeeded == OfClass(limit, pods, SucceededPod)
    ensures forall p :: p in succeeded <==> p in pods && p.phase == Succeeded
    ensures forall p :: p in failed <==>
              p in pods && (p.phase == Failed
                            || (p.phase != Succeeded && !p.terminating && p.restartOnFailure
                                && Sum(p.initRestarts + p.restarts) > limit))
    ensures forall p :: p in active <==>
              && p in pods && p.phase != Succeeded && p.phase != Failed && !p.terminating
              && !(p.restartOnFailure && Sum(p.initRestarts + p.restarts) > limit)
  {
    active, failed, succeeded := [], [], [];
    for i := 0 to |pods|
      invariant active == OfClass(limit, pods[..i], ActivePod)
      invariant failed == OfClass(limit, pods[..i], FailedPod)
      invariant succeeded == OfClass(limit, pods[..i], SucceededPod)
    {
      var p := pods[i];
      assert pods[..i + 1][..i] == pods[..i];
      if p.phase == Succeeded {
        succeeded := succeeded + [p];
      } else if p.phase == Failed {
        failed := failed + [p];
      } else if !p.terminating {
        var restarted := IsPodFailed(limit, p);
        if restarted {
          failed := failed + [p];
        } else {
          active := active + [p];
        }
      }
    }
    assert pods[..|pods|] == pods;
    forall p
      ensures p in active <==> p in pods && Classify(limit, p) == ActivePod
      ensures p in failed <==> p in pods && Classify(limit, p) == FailedPod
      ensures p in succeeded <==> p in pods && Classify(limit, p) == SucceededPod
      ensures Sum(p.initRestarts + p.restarts) == Sum(p.initRestarts) + Sum(p.restarts)
    {
      ClassMembers(limit, pods, p);
      SumAdds(p.initRestarts, p.restarts);
    }
  }

  lemma OfClassCounts(limit: int, pods: seq<Pod>, c: Class, p: Pod)
    requires pods != []
    ensures var n := |pods| - 1;
            multiset(OfClass(limit, pods, c))[p] == multiset(OfClass(limit, pods[..n], c))[p]
              + (if pods[n] == p && Classify(limit, p) == c then 1 else 0)
  {
  }

  lemma LastCounts(pods: seq<Pod>, p: Pod)
    requires pods != []
    ensures var n := |pods| - 1; multiset(pods)[p] == multiset(pods[..n])[p] + (if pods[n] == p then 1 else 0)
  {
    assert pods == pods[..|pods| - 1] + [pods[|pods| - 1]];
  }

  /** The three lists and the ignored pods partition the pods: each list holds each pod as often as it is listed if
      the pod is of its class, and not at all otherwise. */
  lemma {:induction false} ClassesPartitionPods(limit: int, pods: seq<Pod>, c: Class, p: Pod)
    ensures multiset(OfClass(limit, pods, c))[p] == if Classify(limit, p) == c then multiset(pods)[p] else 0
  {
    if pods != [] {
      var n := |pods| - 1;
      ClassesPartitionPods(limit, pods[..n], c, p);
      OfClassCounts(limit, pods, c, p);
      LastCounts(pods, p);
    }
  }

  lemma ClassMembers(limit: int, pods: seq<Pod>, p: Pod)
    ensures forall c :: p in OfClass(limit, pods, c) <==> p in pods && Classify(limit, p) == c
  {
    forall c
      ensures p in OfClass(limit, pods, c) <==> p in pods && Classify(limit, p) == c
    {
      ClassesPartitionPods(limit, pods, c, p);
      assert p in OfClass(limit, pods, c) <==> multiset(OfClass(limit, pods, c))[p] > 0;
      assert p in pods <==> multiset(pods)[p] > 0;
    }
  }

  // ---------------------------------------------------------------------------------------------------------
  // Which pod stands for a node, and which nodes still need one.

  /** Some listed pod per occupied node: the last one listed. */
  function NodeToPod(pods: seq<Pod>): map<NodeName, Pod> {
    if pods == [] then map[]
    else
      var last := pods[|pods| - 1];
      NodeToPod(pods[..|pods| - 1])[last.node := last]
  }

  /** The i-th pod is the last one listed on the node. */
  ghost predicate LastOn(pods: seq<Pod>, node: NodeName, i: int) {
    0 <= i < |pods| && pods[i].node == node && forall j :: i < j < |pods| ==> pods[j].node != node
  }

  lemma LastOnExtends(front: seq<Pod>, p: Pod, node: NodeName, i: int)
    requires LastOn(front, node, i) && p.node != node
    ensures LastOn(front + [p], node, i)
  {
  }

  /** Of the pods listed on a node, the last one stands for it. */
  lemma {:induction false} LastListedStands(pods: seq<Pod>, node: NodeName) returns (i: int)
    requires node in NodeToPod(pods)
    ensures LastOn(pods, node, i) && NodeToPod(pods)[node] == pods[i]
  {
    i := |pods| - 1;
    var front, last := pods[..i], pods[i];
    if last.node != node {
      i := LastListedStands(front, node);
      LastOnExtends(front, last, node, i);
      assert front + [last] == pods;
    }
  }

  /** And every node with a listed pod is stood for. */
  lemma {:induction false} ListedNodesStoodFor(pods: seq<Pod>, k: nat)
    requires k < |pods|
    ensures pods[k].node in NodeToPod(pods)
  {
    if k < |pods| - 1 {
      ListedNodesStoodFor(pods[..|pods| - 1], k);
    }
  }

  method GetNodeToPodMap(pods: seq<Pod>) returns (m: map<NodeName, Pod>)
    ensures m == NodeToPod(pods)
  {
    m := map[];
    for i := 0 to |pods|
      invariant m == NodeToPod(pods[..i])
    {
      assert pods[..i + 1][..i] == pods[..i];
      m := m[pods[i].node := pods[i]];
    }
    assert pods[..|pods|] == pods;
  }

  /** The three results of choosing nodes, said directly. `fits` is node fitness of an existing pod, `fitsNew`
      that of the pod the job would create. */
  ghost predicate Chosen(nodes: seq<NodeName>, existing: map<NodeName, Pod>,
                         fits: (Pod, NodeName) -> bool, fitsNew: NodeName -> bool,
                         desired: map<NodeName, Option<Pod>>, rest: seq<NodeName>, toDelete: seq<Pod>)
  {
    && (forall n :: n in desired <==>
          n in nodes && if n in existing then fits(existing[n], n) || existing[n].terminating else fitsNew(n))
    && (forall n :: n in desired ==> desired[n] == if n in existing then Some(existing[n]) else None)
    && (forall n :: n in rest <==> n in nodes && n !in existing && fitsNew(n))
    && (forall p :: p in toDelete <==> exists n :: Evicted(nodes, existing, fits, n, p))
    && (Distinct(nodes) ==> Distinct(rest))
  }

  /** Pod p stands for the listed node n, does not fit there any more, and is not on its way out yet. */
  ghost predicate Evicted(nodes: seq<NodeName>, existing: map<NodeName, Pod>, fits: (Pod, NodeName) -> bool,
                          n: NodeName, p: Pod)
  {
    n in nodes && n in existing && existing[n] == p && !fits(p, n) && !p.terminating
  }

  method GetNodesToRunPod(nodes: seq<NodeName>, existing: map<NodeName, Pod>,
                          fits: (Pod, NodeName) -> bool, fitsNew: NodeName -> bool)
    returns (desired: map<NodeName, Option<Pod>>, rest: seq<NodeName>, toDelete: seq<Pod>)
    ensures Chosen(nodes, existing, fits, fitsNew, desired, rest, toDelete)
  {
    desired, rest, toDelete := map[], [], [];
    for i := 0 to |nodes|
      invariant Chosen(nodes[..i], existing, fits, fitsNew, desired, rest, toDelete)
    {
      var node := nodes[i];
      ghost var d0, r0, t0 := desired, rest, toDelete;
      if node in existing {
        var pod := existing[node];
        if !fits(pod, node) && !pod.terminating {
          toDelete := toDelete + [pod];
        } else {
          desired := desired[node := Some(pod)];
        }
      } else if fitsNew(node) {
        rest := rest + [node];
        desired := desired[node := None];
      }
      ChosenExtends(nodes[..i], node, existing, fits, fitsNew, d0, r0, t0, desired, rest, toDelete);
      assert nodes[..i + 1] == nodes[..i] + [node];
    }
    assert nodes[..|nodes|] == nodes;
  }

  lemma ChosenExtends(nodes: seq<NodeName>, node: NodeName, existing: map<NodeName, Pod>,
                      fits: (Pod, NodeName) -> bool, fitsNew: NodeName -> bool,
                      d0: map<NodeName, Option<Pod>>, r0: seq<NodeName>, t0: seq<Pod>,
                      d: map<NodeName, Option<Pod>>, r: seq<NodeName>, t: seq<Pod>)
    requires Chosen(nodes, existing, fits, fitsNew, d0, r0, t0)
    requires node in existing && !fits(existing[node], node) && !existing[node].terminating
             ==> d == d0 && r == r0 && t == t0 + [existing[node]]
    requires node in existing && (fits(existing[node], node) || existing[node].terminating)
             ==> d == d0[node := Some(existing[node])] && r == r0 && t == t0
    requires node !in existing && fitsNew(node) ==> d == d0[node := None] && r == r0 + [node] && t == t0
    requires node !in existing && !fitsNew(node) ==> d == d0 && r == r0 && t == t0
    ensures Chosen(nodes + [node], existing, fits, fitsNew, d, r, t)
  {
    var all := nodes + [node];
    forall p
      ensures p in t <==> exists n :: Evicted(all, existing, fits, n, p)
    {
      if p in t0 {
        var n :| Evicted(nodes, existing, fits, n, p);
        assert Evicted(all, existing, fits, n, p);
      } else if p in t {
        assert Evicted(all, existing, fits, node, p);
      }
      if exists n :: Evicted(all, existing, fits, n, p) {
        var n :| Evicted(all, existing, fits, n, p);
        assert n != node ==> Evicted(nodes, existing, fits, n, p);
      }
    }
    if Distinct(all) {
      assert Distinct(nodes) by {
        assert forall i :: 0 <= i < |nodes| ==> all[i] == nodes[i];
      }
      assert node !in nodes by {
        assert all[|nodes|] == node;
        assert forall i :: 0 <= i < |nodes| ==> all[i] == nodes[i];
      }
    }
  }

  method IsJobComplete(never: bool, desired: map<NodeName, Option<Pod>>) returns (complete: bool)
    ensures complete <==>
            !never && desired != map[] && forall n :: n in desired ==> desired[n].Some? && !desired[n].value.Alive()
  {
    if never {
      return false;
    }
    if |desired| == 0 {
      return false;
    }
    var todo := desired.Keys;
    while todo != {}
      invariant todo <= desired.Keys
      invariant forall n :: n in desired && n !in todo ==> desired[n].Some? && !desired[n].value.Alive()
      decreases |todo|
    {
      var n :| n in todo;
      if desired[n].None? || desired[n].value.Alive() {
        return false;
      }
      todo := todo - {n};
    }
    return true;
  }

  /** A reconcile that has a node left to create a pod on cannot find the job complete. */
  lemma RestMeansIncomplete(nodes: seq<NodeName>, existing: map<NodeName, Pod>,
                            fits: (Pod, NodeName) -> bool, fitsNew: NodeName -> bool,
                            desired: map<NodeName, Option<Pod>>, rest: seq<NodeName>, toDelete: seq<Pod>)
    requires Chosen(nodes, existing, fits, fitsNew, desired, rest, toDelete)
    requires rest != []
    ensures exists n :: n in desired && desired[n].None?
  {
    assert rest[0] in rest;
    assert rest[0] in desired && desired[rest[0]].None?;
  }

  // ---------------------------------------------------------------------------------------------------------
  // Acting: create with slow start, delete all at once.

  datatype CreateOutcome = Created | TimedOut | Refused

  /** Calls among lo..hi-1 that return before the active counter is raised. */
  function TimeOuts(outcome: nat -> CreateOutcome, lo: nat, hi: nat): nat
    decreases hi - lo
  {
    if hi <= lo then 0
    else TimeOuts(outcome, lo, hi - 1) + (if outcome(hi - 1).TimedOut? then 1 else 0)
  }

  ghost function Refusals(outcome: nat -> CreateOutcome): nat -> bool {
    i => i >= 0 && outcome(i).Refused?
  }

  /** The calls before the n-th that time out. */
  ghost function TimedOutBefore(outcome: nat -> CreateOutcome, n: nat): set<nat> {
    set i: nat | i < n && outcome(i) == TimedOut
  }

  lemma {:induction false} TimeOutsAreCounted(outcome: nat -> CreateOutcome, n: nat)
    ensures TimeOuts(outcome, 0, n) == |TimedOutBefore(outcome, n)|
  {
    if n > 0 {
      TimeOutsAreCounted(outcome, n - 1);
      var front := TimedOutBefore(outcome, n - 1);
      if outcome(n - 1) == TimedOut {
        assert TimedOutBefore(outcome, n) == front + {n - 1};
      } else {
        assert TimedOutBefore(outcome, n) == front;
      }
    }
  }

  lemma RefusalsAreRefused(outcome: nat -> CreateOutcome, i: nat)
    ensures Refusals(outcome)(i) <==> outcome(i) == Refused
  {
  }

  /** One batch: the creations begin..begin+size-1. Those that do not time out count as started, refused or not. */
  method CreateBatch(begin: nat, size: nat, outcome: nat -> CreateOutcome) returns (started: nat, errors: bool)
    ensures started == size - (TimeOuts(outcome, 0, begin + size) - TimeOuts(outcome, 0, begin))
    ensures errors <==> SlowStart.FailsIn(Refusals(outcome), begin, begin + size)
  {
    started, errors := 0, false;
    for i := 0 to size
      invariant started == i - (TimeOuts(outcome, 0, begin + i) - TimeOuts(outcome, 0, begin))
      invariant errors <==> SlowStart.FailsIn(Refusals(outcome), begin, begin + i)
    {
      var o := outcome(begin + i);
      if o.Refused? {
        errors := true;
        assert Refusals(outcome)(begin + i);
      }
      if !o.TimedOut? {
        started := started + 1;
      }
    }
  }

  /** `attempted` counts the creations tried; they are made on rest[0], rest[1], ... in that order. */
  method ReconcilePods(rest: seq<NodeName>, active: int, parallelism: int, outcome: nat -> CreateOutcome)
    returns (newActive: int, failed: bool, attempted: nat)
    ensures attempted == if active < parallelism
                         then SlowStart.Attempted(Refusals(outcome), 0, Min(parallelism - active, |rest|),
                                                  SLOW_START_INITIAL_BATCH_SIZE)
                         else 0
    ensures attempted <= |rest| && attempted <= Max(0, parallelism - active)
    ensures newActive == active + attempted - TimeOuts(outcome, 0, attempted)
    ensures failed <==> SlowStart.FailsIn(Refusals(outcome), 0, attempted)
  {
    newActive, failed, attempted := active, false, 0;
    if active < parallelism {
      var diff: nat := Min(parallelism - active, |rest|);
      ghost var total, fails := diff, Refusals(outcome);
      SlowStart.AttemptedIsPrefix(fails, 0, total, SLOW_START_INITIAL_BATCH_SIZE);
      var batchSize: nat := Min(diff, SLOW_START_INITIAL_BATCH_SIZE);
      while diff > 0
        invariant attempted + diff == total
        invariant 0 < diff ==> 0 < batchSize <= diff
        invariant diff > 0 ==> SlowStart.Attempted(fails, attempted, diff, batchSize)
                               == SlowStart.Attempted(fails, 0, total, SLOW_START_INITIAL_BATCH_SIZE)
        invariant diff == 0 ==> attempted == SlowStart.Attempted(fails, 0, total, SLOW_START_INITIAL_BATCH_SIZE)
        invariant newActive == active + attempted - TimeOuts(outcome, 0, attempted)
        invariant failed <==> SlowStart.FailsIn(fails, 0, attempted)
        invariant diff > 0 ==> !failed
      {
        var started, errorsInBatch := CreateBatch(attempted, batchSize, outcome);
        newActive := newActive + started;
        attempted := attempted + batchSize;
        failed := failed || errorsInBatch;
        var skipped := diff - batchSize;
        if errorsInBatch && skipped > 0 {
          break;
        }
        diff := diff - batchSize;
        batchSize := Min(2 * batchSize, diff);
      }
    }
  }

  /** `refused(i)` says whether the deletion of the i-th pod fails. Each success moves one unit from active to
      failed, whatever the pod was. */
  method DeleteJobPods(pods: seq<Pod>, failed: int, active: int, refused: nat -> bool)
    returns (newFailed: int, newActive: int)
    ensures newFailed == failed + |pods| - SlowStart.Failures(refused, 0, |pods|)
    ensures newActive == active - |pods| + SlowStart.Failures(refused, 0, |pods|)
  {
    newFailed, newActive := failed, active;
    for i := 0 to |pods|
      invariant newFailed == failed + i - SlowStart.Failures(refused, 0, i)
      invariant newActive == active - i + SlowStart.Failures(refused, 0, i)
    {
      if !refused(i) {
        newFailed, newActive := newFailed + 1, newActive - 1;
      }
    }
  }
}
