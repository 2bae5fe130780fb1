/** One BroadcastJob over time: the API server, an informer cache that lags behind it, an event handler that lags
    behind the cache, the set of scale expectations, and a controller that acts on the cache only when nothing is
    expected any more. Reconciles of one job are serial; everything else interleaves freely.

    API events are numbered 0, 1, 2, ...; the cache has applied the first `seen` of them, the handler has been
    notified of the first `handled`. */
module BroadcastJobProtocol {
  import opened Prelude
  import opened Machines

  type PodId = nat
  type NodeName = string

  /** A pod of the job: when it was created, when it stopped being active (it finished, failed, or was asked to
      terminate), and when it disappeared from the API server. */
  datatype Life = Life(node: NodeName, born: nat, stopped: Option<nat>, gone: Option<nat>) {
    predicate Alive() { gone.None? }

    predicate Active() { gone.None? && stopped.None? }

    /** Does a view that has applied t events contain the pod, and does it show it active? */
    predicate ListedAt(t: nat) { born < t && (gone.None? || gone.value >= t) }

    predicate ActiveAt(t: nat) { ListedAt(t) && (stopped.None? || stopped.value >= t) }
  }

  datatype Controller =
    | Idle
    | Checked                                 // the expectations were found satisfied
    | Deleting(toDelete: set<PodId>, live: set<PodId>, active: int, rest: set<NodeName>)
    | Creating(todo: set<NodeName>, inflight: set<NodeName>, budget: nat)

  /** `wasted` counts successful deletions of pods that were not active when listed. */
  datatype State = State(
    parallelism: int,
    pods: map<PodId, Life>,
    now: nat, seen: nat, handled: nat,
    creates: set<NodeName>, deletes: set<NodeName>,
    ctl: Controller,
    wasted: nat
  )

  function Listed(s: State): set<PodId> { set id | id in s.pods && s.pods[id].ListedAt(s.seen) }

  function ListedActive(s: State): set<PodId> { set id | id in s.pods && s.pods[id].ActiveAt(s.seen) }

  function ListedNodes(s: State): set<NodeName> { set id | id in Listed(s) && id in s.pods :: s.pods[id].node }

  /** The pods that really are active now. */
  function ActivePods(s: State): set<PodId> { set id | id in s.pods && s.pods[id].Active() }

  datatype Step =
    // one reconcile
    | Start
    | List(rest: set<NodeName>, toDelete: set<PodId>)
    | DeleteOk(id: PodId)
    | DeleteFails(id: PodId)
    | BeginCreating
    | Expect(n: NodeName)
    | CreateOk(n: NodeName, id: PodId)
    | CreateFails(n: NodeName)
    | CreateLost(n: NodeName, id: PodId)      // the pod exists although the call returned an error
    | Finish
    // the cluster
    | PodStops(id: PodId)
    | PodGone(id: PodId)
    // the informer
    | CacheAdvances
    | HandleAdd(id: PodId, terminating: bool)
    | HandleGone(id: PodId)
    | HandleOther                             // any other notification, or one that was dropped

  predicate Enabled(s: State, step: Step) {
    match step
    case Start => s.ctl.Idle? && s.creates == {} && s.deletes == {}
    case List(rest, toDelete) => s.ctl.Checked? && rest !! ListedNodes(s) && toDelete <= Listed(s)
    case DeleteOk(id) => s.ctl.Deleting? && id in s.ctl.toDelete && id in s.pods && s.pods[id].Alive()
    case DeleteFails(id) => s.ctl.Deleting? && id in s.ctl.toDelete && id in s.pods
    case BeginCreating => s.ctl.Deleting? && s.ctl.toDelete == {}
    case Expect(n) => s.ctl.Creating? && n in s.ctl.todo && s.ctl.budget > 0
    case CreateOk(n, id) => s.ctl.Creating? && n in s.ctl.inflight && id !in s.pods
    case CreateFails(n) => s.ctl.Creating? && n in s.ctl.inflight
    case CreateLost(n, id) => s.ctl.Creating? && n in s.ctl.inflight && id !in s.pods
    case Finish =>
      s.ctl.Checked? || (s.ctl.Deleting? && s.ctl.toDelete == {}) || (s.ctl.Creating? && s.ctl.inflight == {})
    case PodStops(id) => id in s.pods && s.pods[id].Active()
    case PodGone(id) => id in s.pods && s.pods[id].Alive()
    case CacheAdvances => s.seen < s.now
    case HandleAdd(id, terminating) =>
      && s.handled < s.seen && id in s.pods && s.pods[id].born == s.handled
      // A pod shows up terminating only if the cache has seen it stop.
      && (terminating ==> s.pods[id].stopped.Some? && s.pods[id].stopped.value < s.seen)
    case HandleGone(id) => s.handled < s.seen && id in s.pods && s.pods[id].gone == Some(s.handled)
    case HandleOther => s.handled < s.seen
  }

  /** The API server stores a new pod on node n. */
  function WithPod(s: State, n: NodeName, id: PodId): State {
    s.(pods := s.pods[id := Life(n, s.now, None, None)], now := s.now + 1)
  }

  function Fire(s: State, step: Step): State
    requires Enabled(s, step)
  {
    match step
    case Start => s.(ctl := Checked)
    case List(rest, toDelete) => s.(ctl := Deleting(toDelete, ListedActive(s), |ListedActive(s)|, rest))
    case DeleteOk(id) =>
      var p, c := s.pods[id], s.ctl;
      s.(pods := s.pods[id := p.(stopped := if p.stopped.Some? then p.stopped else Some(s.now))],
         now := s.now + 1,
         deletes := s.deletes + {p.node},
         wasted := if id in c.live then s.wasted else s.wasted + 1,
         ctl := c.(toDelete := c.toDelete - {id}, live := c.live - {id}, active := c.active - 1))
    case DeleteFails(id) =>
      s.(deletes := s.deletes - {s.pods[id].node}, ctl := s.ctl.(toDelete := s.ctl.toDelete - {id}))
    case BeginCreating =>
      s.(ctl := if s.ctl.active < s.parallelism
                then Creating(s.ctl.rest, {}, Min(s.parallelism - s.ctl.active, |s.ctl.rest|))
                else Idle)
    case Expect(n) =>
      s.(creates := s.creates + {n},
         ctl := Creating(s.ctl.todo - {n}, s.ctl.inflight + {n}, s.ctl.budget - 1))
    case CreateOk(n, id) =>
      WithPod(s, n, id).(ctl := s.ctl.(inflight := s.ctl.inflight - {n}))
    case CreateFails(n) =>
      s.(creates := s.creates - {n}, ctl := s.ctl.(inflight := s.ctl.inflight - {n}))
    case CreateLost(n, id) =>
      WithPod(s, n, id).(creates := s.creates - {n}, ctl := s.ctl.(inflight := s.ctl.inflight - {n}))
    case Finish => s.(ctl := Idle)
    case PodStops(id) => s.(pods := s.pods[id := s.pods[id].(stopped := Some(s.now))], now := s.now + 1)
    case PodGone(id) => s.(pods := s.pods[id := s.pods[id].(gone := Some(s.now))], now := s.now + 1)
    case CacheAdvances => s.(seen := s.seen + 1)
    case HandleAdd(id, terminating) =>
      var n := s.pods[id].node;
      // A pod that shows up already terminating is reported as a deletion.
      if terminating then s.(handled := s.handled + 1, deletes := s.deletes - {n})
      else s.(handled := s.handled + 1, creates := s.creates - {n})
    case HandleGone(id) => s.(handled := s.handled + 1, deletes := s.deletes - {s.pods[id].node})
    case HandleOther => s.(handled := s.handled + 1)
  }

  ghost predicate Runs(s: State, steps: seq<Step>, t: State) { Run(Fire, s, steps, t) }

  // ---------------------------------------------------------------------------------------------------------
  // What is to be shown.

  ghost predicate OnePodPerNode(s: State) {
    forall a, b :: && a in s.pods && b in s.pods && s.pods[a].Alive() && s.pods[b].Alive()
                   && s.pods[a].node == s.pods[b].node
                   ==> a == b
  }

  ghost function Allowed(s: State): int { Max(0, s.parallelism) + s.wasted }

  /** Any state in which the controller is idle, nothing is expected, and cache and handler have caught up. */
  ghost predicate Settled(s: State) {
    && s.ctl == Idle && s.creates == {} && s.deletes == {} && s.wasted == 0
    && s.handled == s.seen == s.now
    && TimesSound(s) && OnePodPerNode(s)
    && |ActivePods(s)| <= Max(0, s.parallelism)
  }

  // ---------------------------------------------------------------------------------------------------------
  // What is counted.

  /** A reconcile starts out from the pods its cache shows active, and counts them; a successful deletion takes one off
      and is wasted exactly if the pod was not among them. */
  lemma CountsFromTheList(s: State, step: Step)
    requires Enabled(s, step)
    ensures step.List? ==>
              var c := Fire(s, step).ctl;
              && c.Deleting? && c.active == |c.live| && c.rest == step.rest && c.toDelete == step.toDelete
              && forall id :: id in c.live <==>
                   && id in s.pods && s.pods[id].born < s.seen
                   && (s.pods[id].gone.Some? ==> s.pods[id].gone.value >= s.seen)
                   && (s.pods[id].stopped.Some? ==> s.pods[id].stopped.value >= s.seen)
    ensures step.DeleteOk? ==>
              && Fire(s, step).ctl.active == s.ctl.active - 1
              && Fire(s, step).wasted == s.wasted + if step.id in s.ctl.live then 0 else 1
    ensures !step.DeleteOk? ==> Fire(s, step).wasted == s.wasted
  {
  }

  // ---------------------------------------------------------------------------------------------------------
  // The invariant.

  ghost predicate TimesSound(s: State) {
    && s.handled <= s.seen <= s.now
    && (forall id :: id in s.pods ==> s.pods[id].born < s.now)
    && (forall id :: id in s.pods && s.pods[id].stopped.Some? ==> s.pods[id].stopped.value < s.now)
    && (forall id :: id in s.pods && s.pods[id].gone.Some? ==> s.pods[id].gone.value < s.now)
  }

  ghost predicate Unhandled(s: State, id: PodId) { id in s.pods && s.pods[id].born >= s.handled }

  /** No pod exists on node n. */
  ghost predicate Vacant(s: State, n: NodeName) {
    forall id :: id in s.pods && s.pods[id].node == n ==> !s.pods[id].Alive()
  }

  /** The nodes the controller may still create a pod on in this reconcile. */
  function Targets(c: Controller): set<NodeName> {
    match c
    case Deleting(_, _, _, rest) => rest
    case Creating(todo, inflight, _) => todo + inflight
    case _ => {}
  }

  ghost predicate TargetsVacant(s: State) {
    && (forall n :: n in Targets(s.ctl) ==> Vacant(s, n))
    && (s.ctl.Creating? ==> s.ctl.todo !! s.ctl.inflight)
  }

  /** The key fact about the expectations: a creation nobody has been notified of is still expected, and no two such
      creations share a node. */
  ghost predicate UnhandledExpected(s: State) {
    forall id :: Unhandled(s, id) ==> s.pods[id].node in s.creates
  }

  ghost predicate UnhandledApart(s: State) {
    forall a, b :: Unhandled(s, a) && Unhandled(s, b) && s.pods[a].node == s.pods[b].node ==> a == b
  }

  /** A reconcile that has found nothing expected works on a history that has been handled. */
  ghost predicate NothingUnhandled(s: State) {
    s.ctl.Checked? || s.ctl.Deleting? ==> forall id :: id in s.pods ==> s.pods[id].born < s.handled
  }

  ghost predicate TargetsExpected(s: State) {
    s.ctl.Creating? ==>
      s.ctl.inflight <= s.creates && forall id :: Unhandled(s, id) ==> s.pods[id].node !in Targets(s.ctl)
  }

  ghost predicate Expected(s: State) {
    UnhandledExpected(s) && UnhandledApart(s) && NothingUnhandled(s) && TargetsExpected(s)
  }

  ghost predicate WithinParallelism(s: State) {
    match s.ctl
    case Creating(_, inflight, budget) => |ActivePods(s)| + |inflight| + budget <= Allowed(s)
    case Deleting(_, live, active, _) =>
      ActivePods(s) <= live && |live| <= active + s.wasted && |ActivePods(s)| <= Allowed(s)
    case _ => |ActivePods(s)| <= Allowed(s)
  }

  /** Every existing pod has a listed pod on its node, so listing cannot take its node for vacant. */
  ghost predicate Covered(s: State) {
    forall id :: id in s.pods && s.pods[id].Alive() ==> s.pods[id].node in ListedNodes(s)
  }

  ghost predicate Inv(s: State) {
    TimesSound(s) && OnePodPerNode(s) && TargetsVacant(s) && Expected(s) && WithinParallelism(s)
  }

  // Each conjunct separately.

  lemma TimesKept(s: State, step: Step)
    requires TimesSound(s) && Enabled(s, step)
    ensures TimesSound(Fire(s, step))
  {
  }

  lemma OnePodPerNodeKept(s: State, step: Step)
    requires OnePodPerNode(s) && TargetsVacant(s) && Enabled(s, step)
    ensures OnePodPerNode(Fire(s, step))
  {
    if step.CreateOk? || step.CreateLost? {
      assert step.n in Targets(s.ctl);
      assert Vacant(s, step.n);
    }
  }

  lemma TargetsVacantKept(s: State, step: Step)
    requires TargetsVacant(s) && Enabled(s, step) && (step.List? ==> Covered(s))
    ensures TargetsVacant(Fire(s, step))
  {
    var t := Fire(s, step);
    forall n | n in Targets(t.ctl)
      ensures Vacant(t, n)
    {
      if step.List? {
        assert n !in ListedNodes(s);
      } else {
        assert n in Targets(s.ctl);
        assert Vacant(s, n);
      }
    }
  }

  /** Only a creation adds a pod that has not been handled, and only on one of its targets. */
  lemma UnhandledAfter(s: State, step: Step)
    requires Enabled(s, step) && !step.CreateLost?
    ensures forall id :: Unhandled(Fire(s, step), id) ==>
              if step.CreateOk? && step.id == id then Fire(s, step).pods[id].node == step.n
              else Unhandled(s, id) && Fire(s, step).pods[id].node == s.pods[id].node
    ensures step.CreateOk? ==> step.n in s.ctl.inflight
  {
  }

  lemma UnhandledExpectedKept(s: State, step: Step)
    requires Expected(s) && Enabled(s, step) && !step.CreateLost?
    ensures UnhandledExpected(Fire(s, step))
  {
    UnhandledAfter(s, step);
  }

  lemma UnhandledApartKept(s: State, step: Step)
    requires Expected(s) && Enabled(s, step) && !step.CreateLost?
    ensures UnhandledApart(Fire(s, step))
  {
    UnhandledAfter(s, step);
  }

  lemma NothingUnhandledKept(s: State, step: Step)
    requires Expected(s) && TimesSound(s) && Enabled(s, step) && !step.CreateLost?
    ensures NothingUnhandled(Fire(s, step))
  {
    UnhandledAfter(s, step);
  }

  lemma TargetsExpectedKept(s: State, step: Step)
    requires Expected(s) && TargetsVacant(s) && Enabled(s, step) && !step.CreateLost?
    ensures TargetsExpected(Fire(s, step))
  {
    UnhandledAfter(s, step);
  }

  lemma ExpectedKept(s: State, step: Step)
    requires Expected(s) && TimesSound(s) && TargetsVacant(s) && Enabled(s, step) && !step.CreateLost?
    ensures Expected(Fire(s, step))
  {
    UnhandledExpectedKept(s, step);
    UnhandledApartKept(s, step);
    NothingUnhandledKept(s, step);
    TargetsExpectedKept(s, step);
  }

  /** While a reconcile lists, everything created before has been notified, hence is in the cache. */
  lemma ExpectedCovers(s: State)
    requires Expected(s) && TimesSound(s) && s.ctl.Checked?
    ensures Covered(s)
    ensures ActivePods(s) <= ListedActive(s)
  {
  }

  lemma ActiveAfter(s: State, step: Step)
    requires Enabled(s, step)
    ensures var t := Fire(s, step);
            ActivePods(t) == match step
                             case CreateOk(_, id) => ActivePods(s) + {id}
                             case CreateLost(_, id) => ActivePods(s) + {id}
                             case DeleteOk(id) => ActivePods(s) - {id}
                             case PodStops(id) => ActivePods(s) - {id}
                             case PodGone(id) => ActivePods(s) - {id}
                             case _ => ActivePods(s)
  {
  }

  /** Outside creation the active pods can only become fewer. */
  lemma ActiveShrinks(s: State, step: Step)
    requires Enabled(s, step) && !step.CreateOk? && !step.CreateLost?
    ensures ActivePods(Fire(s, step)) <= ActivePods(s)
    ensures |ActivePods(Fire(s, step))| <= |ActivePods(s)|
  {
    ActiveAfter(s, step);
    SubsetSize(ActivePods(Fire(s, step)), ActivePods(s));
  }

  lemma CreatingWithinParallelism(s: State, step: Step)
    requires WithinParallelism(s) && s.ctl.Creating? && Enabled(s, step)
    requires step.Expect? || step.CreateOk? || step.CreateFails?
    ensures WithinParallelism(Fire(s, step))
  {
    ActiveAfter(s, step);
    AddOne(s.ctl.inflight, step.n);
    if step.CreateOk? {
      AddOne(ActivePods(s), step.id);
    }
  }

  lemma DeletionWithinParallelism(s: State, id: PodId)
    requires WithinParallelism(s) && s.ctl.Deleting? && Enabled(s, DeleteOk(id))
    ensures WithinParallelism(Fire(s, DeleteOk(id)))
  {
    ActiveAfter(s, DeleteOk(id));
    ActiveShrinks(s, DeleteOk(id));
    AddOne(s.ctl.live, id);
    assert id !in s.ctl.live ==> s.ctl.live - {id} == s.ctl.live;
  }

  lemma BeginningWithinParallelism(s: State)
    requires WithinParallelism(s) && s.ctl.Deleting? && Enabled(s, BeginCreating)
    ensures WithinParallelism(Fire(s, BeginCreating))
  {
    ActiveAfter(s, BeginCreating);
    SubsetSize(ActivePods(s), s.ctl.live);
  }

  lemma WithinParallelismKept(s: State, step: Step)
    requires WithinParallelism(s) && Enabled(s, step) && !step.CreateLost?
    requires step.List? ==> ActivePods(s) <= ListedActive(s)
    ensures WithinParallelism(Fire(s, step))
  {
    if step.Expect? || step.CreateOk? || step.CreateFails? {
      CreatingWithinParallelism(s, step);
    } else if step.DeleteOk? {
      DeletionWithinParallelism(s, step.id);
    } else if step.BeginCreating? {
      BeginningWithinParallelism(s);
    } else {
      ActiveShrinks(s, step);
    }
  }

  lemma {:induction false} RunKeepsInv(s: State, steps: seq<Step>, t: State)
    requires Inv(s) && Runs(s, steps, t)
    requires forall i :: 0 <= i < |steps| ==> !steps[i].CreateLost?
    ensures Inv(t) && t.parallelism == s.parallelism
    decreases |steps|
  {
    if steps != [] {
      var step := steps[0];
      assert Enabled(s, step);
      if step.List? {
        ExpectedCovers(s);
      }
      TimesKept(s, step);
      OnePodPerNodeKept(s, step);
      TargetsVacantKept(s, step);
      ExpectedKept(s, step);
      WithinParallelismKept(s, step);
      RunKeepsInv(Fire(s, step), steps[1..], t);
    }
  }

  /** In every reachable state the job has at most one pod per node, as long as a failing create call creates
      nothing. */
  lemma AtMostOnePodPerNode(s: State, steps: seq<Step>, t: State)
    requires Settled(s) && Runs(s, steps, t)
    requires forall i :: 0 <= i < |steps| ==> !steps[i].CreateLost?
    ensures OnePodPerNode(t)
  {
    RunKeepsInv(s, steps, t);
  }

  /** The number of active pods exceeds the parallelism by at most the number of inactive pods deleted on the way;
      it never exceeds it when only active pods are deleted. */
  lemma ActiveWithinParallelism(s: State, steps: seq<Step>, t: State)
    requires Settled(s) && Runs(s, steps, t)
    requires forall i :: 0 <= i < |steps| ==> !steps[i].CreateLost?
    ensures |ActivePods(t)| <= Max(0, s.parallelism) + t.wasted
    ensures t.wasted == 0 ==> |ActivePods(t)| <= Max(0, s.parallelism)
  {
    RunKeepsInv(s, steps, t);
  }

  // ---------------------------------------------------------------------------------------------------------
  // Putting runs together.

  ghost predicate SameReconcile(steps: seq<Step>) {
    forall i :: 0 <= i < |steps| ==> !steps[i].Start?
  }

  /** A reconcile that wants a pod on node n, up to the moment before it asks for it. */
  lemma PodWanted(s: State, n: NodeName) returns (steps: seq<Step>, t: State)
    requires s.ctl.Idle? && s.creates == {} && s.deletes == {}
    requires n !in ListedNodes(s) && |ListedActive(s)| < s.parallelism
    ensures Runs(s, steps, t)
    ensures t == s.(ctl := Creating({}, {n}, 0), creates := {n})
  {
    var s1 := Fire(s, Start);
    var s2 := Fire(s1, List({n}, {}));
    var s3 := Fire(s2, BeginCreating);
    t := Fire(s3, Expect(n));
    assert {n} - {n} == {} && {} + {n} == {n};
    steps := [Start, List({n}, {}), BeginCreating, Expect(n)];
    RunThrough(Fire, [s, s1, s2, s3, t], steps, 0);
    assert steps[0..] == steps;
  }
}
