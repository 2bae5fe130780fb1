/** When a BroadcastJob can act again. It acts only when nothing is expected any more, and expectations do not lapse:
    one goes only when the handler is notified of the right event. A pod that shows up already terminating is reported
    as a deletion, so its creation stays expected. */
module StuckExpectations {
  import opened Prelude
  import opened Machines
  import opened BroadcastJobProtocol

  ghost predicate BirthsApart(s: State) {
    forall a, b :: a in s.pods && b in s.pods && a != b ==> s.pods[a].born != s.pods[b].born
  }

  ghost predicate EndsApart(s: State) {
    forall a, b :: a in s.pods && b in s.pods && a != b && s.pods[a].gone.Some? ==> s.pods[a].gone != s.pods[b].gone
  }

  ghost predicate BirthsAndEndsApart(s: State) {
    forall a, b :: a in s.pods && b in s.pods ==> s.pods[a].gone != Some(s.pods[b].born)
  }

  ghost predicate BornFirst(s: State) {
    forall a :: a in s.pods && s.pods[a].gone.Some? ==> s.pods[a].born < s.pods[a].gone.value
  }

  /** Each event is about one pod, and a pod is created before it goes. */
  ghost predicate EventsSound(s: State) {
    TimesSound(s) && BirthsApart(s) && EndsApart(s) && BirthsAndEndsApart(s) && BornFirst(s)
  }

  lemma BirthsKept(s: State, step: Step)
    requires TimesSound(s) && BirthsApart(s) && Enabled(s, step)
    ensures BirthsApart(Fire(s, step))
  {
  }

  lemma EndsKept(s: State, step: Step)
    requires TimesSound(s) && EndsApart(s) && BornFirst(s) && Enabled(s, step)
    ensures EndsApart(Fire(s, step)) && BornFirst(Fire(s, step))
  {
  }

  lemma BirthsAndEndsKept(s: State, step: Step)
    requires TimesSound(s) && BirthsAndEndsApart(s) && Enabled(s, step)
    ensures BirthsAndEndsApart(Fire(s, step))
  {
  }

  lemma EventsKept(s: State, step: Step)
    requires EventsSound(s) && Enabled(s, step)
    ensures EventsSound(Fire(s, step))
  {
    TimesKept(s, step);
    BirthsKept(s, step);
    EndsKept(s, step);
    BirthsAndEndsKept(s, step);
  }

  lemma {:induction false} EventsAlwaysSound(s: State, steps: seq<Step>, t: State)
    requires EventsSound(s) && Runs(s, steps, t)
    ensures EventsSound(t)
    decreases |steps|
  {
    if steps != [] {
      EventsKept(s, steps[0]);
      EventsAlwaysSound(Fire(s, steps[0]), steps[1..], t);
    }
  }

  /** The creation of a pod on node n has still to be notified. */
  ghost predicate CreationDue(s: State, n: NodeName) {
    exists id :: Unhandled(s, id) && s.pods[id].node == n
  }

  /** A pod on node n has still to go, or to be notified as gone. */
  ghost predicate DeletionDue(s: State, n: NodeName) {
    exists id :: id in s.pods && s.pods[id].node == n && !(s.pods[id].gone.Some? && s.pods[id].gone.value < s.handled)
  }

  /** Whatever is expected can still be observed. */
  ghost predicate Observable(s: State) {
    && (forall n :: n in s.creates ==> CreationDue(s, n))
    && (forall n :: n in s.deletes ==> DeletionDue(s, n))
  }

  ghost predicate CanActAgain(s: State) { exists steps, t :: Runs(s, steps, t) && t.ctl.Checked? }

  // ---------------------------------------------------------------------------------------------------------
  // What can no longer be observed stays expected.

  lemma CreationStaysExpected(s: State, step: Step, n: NodeName)
    requires s.ctl.Idle? && Enabled(s, step) && n in s.creates && !CreationDue(s, n)
    ensures var t := Fire(s, step); t.ctl.Idle? && n in t.creates && !CreationDue(t, n)
  {
    var t := Fire(s, step);
    if step.HandleAdd? {
      assert Unhandled(s, step.id);
    }
    forall id | Unhandled(t, id)
      ensures t.pods[id].node != n
    {
      assert Unhandled(s, id);
    }
  }

  lemma DeletionStaysExpected(s: State, step: Step, n: NodeName)
    requires s.ctl.Idle? && EventsSound(s) && Enabled(s, step) && n in s.deletes && !DeletionDue(s, n)
    ensures var t := Fire(s, step); t.ctl.Idle? && n in t.deletes && !DeletionDue(t, n)
  {
    var t := Fire(s, step);
    forall id | id in t.pods && t.pods[id].node == n
      ensures t.pods[id].gone.Some? && t.pods[id].gone.value < t.handled
    {
      assert s.pods[id].gone.Some? && s.pods[id].gone.value < s.handled;
    }
  }

  lemma {:induction false} BlockedForGood(s: State, steps: seq<Step>, t: State)
    requires s.ctl.Idle? && EventsSound(s) && !Observable(s) && Runs(s, steps, t)
    ensures t.ctl.Idle?
    decreases |steps|
  {
    if steps != [] {
      if n :| n in s.creates && !CreationDue(s, n) {
        CreationStaysExpected(s, steps[0], n);
      } else {
        var n :| n in s.deletes && !DeletionDue(s, n);
        DeletionStaysExpected(s, steps[0], n);
      }
      EventsKept(s, steps[0]);
      BlockedForGood(Fire(s, steps[0]), steps[1..], t);
    }
  }

  // ---------------------------------------------------------------------------------------------------------
  // What can be observed is observed, if the pods go and the caches catch up.

  ghost function AlivePods(s: State): set<PodId> { set id | id in s.pods && s.pods[id].Alive() }

  lemma PodGoes(s: State, id: PodId)
    requires s.ctl.Idle? && EventsSound(s) && Observable(s) && id in AlivePods(s)
    ensures var t := Fire(s, PodGone(id));
            t.ctl.Idle? && EventsSound(t) && Observable(t) && AlivePods(t) == AlivePods(s) - {id}
  {
    var t := Fire(s, PodGone(id));
    EventsKept(s, PodGone(id));
    forall n | n in t.creates
      ensures CreationDue(t, n)
    {
      var p :| Unhandled(s, p) && s.pods[p].node == n;
      assert Unhandled(t, p);
    }
    forall n | n in t.deletes
      ensures DeletionDue(t, n)
    {
      var p :| p in s.pods && s.pods[p].node == n && !(s.pods[p].gone.Some? && s.pods[p].gone.value < s.handled);
      assert p in t.pods && t.pods[p].node == n;
    }
  }

  lemma {:induction false} PodsGo(s: State) returns (steps: seq<Step>, t: State)
    requires s.ctl.Idle? && EventsSound(s) && Observable(s)
    ensures Runs(s, steps, t) && t.ctl.Idle? && EventsSound(t) && Observable(t) && AlivePods(t) == {}
    decreases |AlivePods(s)|
  {
    if AlivePods(s) == {} {
      return [], s;
    }
    var id := SomeElement(AlivePods(s));
    PodGoes(s, id);
    AddOne(AlivePods(s), id);
    var rest;
    rest, t := PodsGo(Fire(s, PodGone(id)));
    RunPrepends(Fire, s, PodGone(id), rest, t);
    steps := [PodGone(id)] + rest;
  }

  /** The step notifies the next event: the creation or the end of one pod, or neither. */
  ghost predicate IsNextNotice(s: State, step: Step) {
    && (step.HandleAdd? || step.HandleGone? || step.HandleOther?)
    && Enabled(s, step) && (step.HandleAdd? ==> !step.terminating)
    && (forall id :: id in s.pods && s.pods[id].born == s.handled ==> step == HandleAdd(id, false))
    && (forall id :: id in s.pods && s.pods[id].gone == Some(s.handled) ==> step == HandleGone(id))
  }

  lemma NextNotice(s: State) returns (step: Step)
    requires s.ctl.Idle? && EventsSound(s) && s.handled < s.seen
    ensures IsNextNotice(s, step)
  {
    if id :| id in s.pods && s.pods[id].born == s.handled {
      step := HandleAdd(id, false);
    } else if id :| id in s.pods && s.pods[id].gone == Some(s.handled) {
      step := HandleGone(id);
    } else {
      step := HandleOther;
    }
  }

  lemma CreationsStayDue(s: State, step: Step)
    requires Observable(s) && IsNextNotice(s, step)
    ensures forall n :: n in Fire(s, step).creates ==> CreationDue(Fire(s, step), n)
  {
    var t := Fire(s, step);
    forall n | n in t.creates
      ensures CreationDue(t, n)
    {
      var p :| Unhandled(s, p) && s.pods[p].node == n;
      assert Unhandled(t, p);
    }
  }

  lemma DeletionsStayDue(s: State, step: Step)
    requires Observable(s) && IsNextNotice(s, step) && AlivePods(s) == {}
    ensures forall n :: n in Fire(s, step).deletes ==> DeletionDue(Fire(s, step), n)
  {
    var t := Fire(s, step);
    forall n | n in t.deletes
      ensures DeletionDue(t, n)
    {
      var p :| p in s.pods && s.pods[p].node == n && !(s.pods[p].gone.Some? && s.pods[p].gone.value < s.handled);
      assert p !in AlivePods(s);
      assert p in t.pods && t.pods[p].node == n;
    }
  }

  lemma {:induction false} NoticesCome(s: State) returns (steps: seq<Step>, t: State)
    requires s.ctl.Idle? && EventsSound(s) && Observable(s) && AlivePods(s) == {}
    ensures Runs(s, steps, t) && t.ctl.Idle? && t.creates == {} && t.deletes == {}
    decreases s.now - s.handled + s.now - s.seen
  {
    if s.handled == s.now {
      NothingLeft(s);
      return [], s;
    }
    var step := CacheAdvances;
    if s.handled < s.seen {
      step := NextNotice(s);
      CreationsStayDue(s, step);
      DeletionsStayDue(s, step);
    } else {
      CacheKeepsObservable(s);
    }
    EventsKept(s, step);
    assert AlivePods(Fire(s, step)) == AlivePods(s);
    var rest;
    rest, t := NoticesCome(Fire(s, step));
    RunPrepends(Fire, s, step, rest, t);
    steps := [step] + rest;
  }

  lemma CacheKeepsObservable(s: State)
    requires Observable(s) && Enabled(s, CacheAdvances)
    ensures Observable(Fire(s, CacheAdvances))
  {
    var t := Fire(s, CacheAdvances);
    forall n | n in t.creates
      ensures CreationDue(t, n)
    {
      var p :| Unhandled(s, p) && s.pods[p].node == n;
      assert Unhandled(t, p);
    }
    forall n | n in t.deletes
      ensures DeletionDue(t, n)
    {
      var p :| p in s.pods && s.pods[p].node == n && !(s.pods[p].gone.Some? && s.pods[p].gone.value < s.handled);
      assert p in t.pods && t.pods[p].node == n;
    }
  }

  lemma NothingLeft(s: State)
    requires EventsSound(s) && Observable(s) && AlivePods(s) == {} && s.handled == s.now
    ensures s.creates == {} && s.deletes == {}
  {
    assert forall p :: p in s.pods ==> p !in AlivePods(s);
    assert forall n :: !CreationDue(s, n) && !DeletionDue(s, n);
  }

  /** An idle job can act again if and only if everything expected can still be observed. */
  lemma CanActAgainIff(s: State)
    requires s.ctl.Idle? && EventsSound(s)
    ensures CanActAgain(s) <==> Observable(s)
  {
    if Observable(s) {
      var first, u := PodsGo(s);
      var second, v := NoticesCome(u);
      RunsAppend(Fire, s, first, u, second, v);
      var t := Fire(v, Start);
      assert [Start][1..] == [];
      assert Runs(v, [Start], t);
      RunsAppend(Fire, s, first + second, v, [Start], t);
      assert Runs(s, first + second + [Start], t);
    } else if CanActAgain(s) {
      var steps, t :| Runs(s, steps, t) && t.ctl.Checked?;
      BlockedForGood(s, steps, t);
    }
  }

  /** A pod that shows up already terminating blocks the job for good, unless another creation on its node is due. */
  lemma TerminatingArrivalBlocks(s: State, id: PodId)
    requires s.ctl.Idle? && EventsSound(s) && Enabled(s, HandleAdd(id, true)) && s.pods[id].node in s.creates
    requires forall other :: Unhandled(s, other) && s.pods[other].node == s.pods[id].node ==> other == id
    ensures !CanActAgain(Fire(s, HandleAdd(id, true)))
  {
    var t := Fire(s, HandleAdd(id, true));
    EventsKept(s, HandleAdd(id, true));
    assert !CreationDue(t, s.pods[id].node);
    CanActAgainIff(t);
  }

  // ---------------------------------------------------------------------------------------------------------
  // Such an arrival happens: the pod is asked to terminate before the cache has shown it to the handler.

  /** A whole reconcile that creates a pod on node n. */
  lemma OnePodCreated(s: State, n: NodeName, id: PodId) returns (steps: seq<Step>, t: State)
    requires Settled(s) && n !in ListedNodes(s) && |ListedActive(s)| < s.parallelism && id !in s.pods
    ensures Runs(s, steps, t)
    ensures t == s.(pods := s.pods[id := Life(n, s.now, None, None)], now := s.now + 1, creates := {n})
  {
    var first, s1 := PodWanted(s, n);
    var s2 := Fire(s1, CreateOk(n, id));
    assert s2.ctl.inflight == {};
    t := Fire(s2, Finish);
    var second := [CreateOk(n, id), Finish];
    RunThrough(Fire, [s1, s2, t], second, 0);
    assert second[0..] == second;
    RunsAppend(Fire, s, first, s1, second, t);
    steps := first + second;
  }

  /** The pod stops, and the cache applies both events before the handler is notified of the first. */
  lemma StopsBeforeShown(s: State, id: PodId) returns (steps: seq<Step>, t: State)
    requires id in s.pods && s.pods[id].Active() && s.pods[id].born == s.handled == s.seen == s.now - 1
    ensures Runs(s, steps, t) && Enabled(t, HandleAdd(id, true))
    ensures t == s.(pods := s.pods[id := s.pods[id].(stopped := Some(s.now))], now := s.now + 1, seen := s.now + 1)
  {
    var s1 := Fire(s, PodStops(id));
    var s2 := Fire(s1, CacheAdvances);
    t := Fire(s2, CacheAdvances);
    steps := [PodStops(id), CacheAdvances, CacheAdvances];
    RunThrough(Fire, [s, s1, s2, t], steps, 0);
    assert steps[0..] == steps;
  }

  /** So from every settled state with a vacant node and room for one pod, a run leads to a job that never acts
      again. */
  lemma SettledJobCanBlock(s: State, n: NodeName, id: PodId) returns (steps: seq<Step>, t: State)
    requires Settled(s) && EventsSound(s)
    requires n !in ListedNodes(s) && |ListedActive(s)| < s.parallelism && id !in s.pods
    ensures Runs(s, steps, t) && !CanActAgain(t)
  {
    var first, mid := OnePodCreated(s, n, id);
    var second, late := StopsBeforeShown(mid, id);
    RunsAppend(Fire, s, first, mid, second, late);
    EventsAlwaysSound(s, first + second, late);
    TerminatingArrivalBlocks(late, id);
    var arrival := HandleAdd(id, true);
    t := Fire(late, arrival);
    assert [arrival][1..] == [];
    assert Runs(late, [arrival], t);
    RunsAppend(Fire, s, first + second, late, [arrival], t);
    steps := first + second + [arrival];
  }

  // ---------------------------------------------------------------------------------------------------------
  // Nothing else blocks a job: a run in which each notification is the right one never does.

  predicate IsNotice(step: Step) { step.HandleAdd? || step.HandleGone? || step.HandleOther? }

  /** Every notification of the run is that of the next event, and no pod shows up terminating. */
  ghost predicate Attended(s: State, steps: seq<Step>)
    decreases |steps|
  {
    steps != [] ==>
      && Enabled(s, steps[0]) && (IsNotice(steps[0]) ==> IsNextNotice(s, steps[0]))
      && Attended(Fire(s, steps[0]), steps[1..])
  }

  /** Every creation expected is being asked for or has still to be notified. */
  ghost predicate CreationsAccounted(s: State) {
    forall n :: n in s.creates ==> CreationDue(s, n) || (s.ctl.Creating? && n in s.ctl.inflight)
  }

  ghost predicate DeletionsAccounted(s: State) { forall n :: n in s.deletes ==> DeletionDue(s, n) }

  lemma CreationStaysDue(s: State, step: Step, n: NodeName)
    requires EventsSound(s) && Enabled(s, step) && (IsNotice(step) ==> IsNextNotice(s, step))
    requires CreationDue(s, n) && n in Fire(s, step).creates
    ensures CreationDue(Fire(s, step), n)
  {
    var p :| Unhandled(s, p) && s.pods[p].node == n;
    assert Unhandled(Fire(s, step), p);
  }

  lemma CreationsAccountedKept(s: State, step: Step)
    requires EventsSound(s) && Enabled(s, step) && (IsNotice(step) ==> IsNextNotice(s, step)) && CreationsAccounted(s)
    ensures CreationsAccounted(Fire(s, step))
  {
    var t := Fire(s, step);
    forall n | n in t.creates
      ensures CreationDue(t, n) || (t.ctl.Creating? && n in t.ctl.inflight)
    {
      if CreationDue(s, n) {
        CreationStaysDue(s, step, n);
      } else if step.CreateOk? && step.n == n {
        assert Unhandled(t, step.id) && t.pods[step.id].node == n;
      }
    }
  }

  lemma DeletionsAccountedKept(s: State, step: Step)
    requires EventsSound(s) && Enabled(s, step) && (IsNotice(step) ==> IsNextNotice(s, step)) && DeletionsAccounted(s)
    ensures DeletionsAccounted(Fire(s, step))
  {
    var t := Fire(s, step);
    forall n | n in t.deletes
      ensures DeletionDue(t, n)
    {
      if step.DeleteOk? && s.pods[step.id].node == n {
        assert step.id in t.pods && t.pods[step.id].node == n;
      } else {
        var p :| p in s.pods && s.pods[p].node == n && !(s.pods[p].gone.Some? && s.pods[p].gone.value < s.handled);
        assert p in t.pods && t.pods[p].node == n;
      }
    }
  }

  /** With failing calls and lost replies anywhere: along every run in which each notification is that of the next event
      and no pod shows up terminating, a job that is idle can act again. */
  lemma {:induction false} AttendedNeverBlocks(s: State, steps: seq<Step>, t: State)
    requires EventsSound(s) && CreationsAccounted(s) && DeletionsAccounted(s)
    requires Runs(s, steps, t) && Attended(s, steps)
    ensures t.ctl.Idle? ==> CanActAgain(t)
    decreases |steps|
  {
    if steps == [] {
      if s.ctl.Idle? {
        CanActAgainIff(s);
      }
    } else {
      EventsKept(s, steps[0]);
      CreationsAccountedKept(s, steps[0]);
      DeletionsAccountedKept(s, steps[0]);
      AttendedNeverBlocks(Fire(s, steps[0]), steps[1..], t);
    }
  }

  // ---------------------------------------------------------------------------------------------------------
  // What is expected is waited for.

  /** What a call asks for is expected, what a failing call was to do is not, and a notification takes away what it is
      about: a pod that goes, or shows up terminating, a deletion, any other pod that shows up a creation. */
  lemma ExpectationChanges(s: State, step: Step)
    requires Enabled(s, step)
    ensures Fire(s, step).creates
            == if step.Expect? then s.creates + {step.n}
               else if step.CreateFails? || step.CreateLost? then s.creates - {step.n}
               else if step.HandleAdd? && !step.terminating then s.creates - {s.pods[step.id].node}
               else s.creates
    ensures Fire(s, step).deletes
            == if step.DeleteOk? then s.deletes + {s.pods[step.id].node}
               else if step.DeleteFails? || step.HandleGone? || (step.HandleAdd? && step.terminating)
               then s.deletes - {s.pods[step.id].node}
               else s.deletes
  {
  }

  /** The step observes a deletion on node n, or gives it up. */
  ghost predicate ObservesDeletion(s: State, step: Step, n: NodeName) {
    && (step.HandleGone? || step.DeleteFails? || (step.HandleAdd? && step.terminating))
    && step.id in s.pods && s.pods[step.id].node == n
  }

  ghost predicate ObservesCreation(s: State, step: Step, n: NodeName) {
    || ((step.CreateFails? || step.CreateLost?) && step.n == n)
    || (step.HandleAdd? && !step.terminating && step.id in s.pods && s.pods[step.id].node == n)
  }

  /** No step of the run observes what is expected on node n. */
  ghost predicate Unobserved(s: State, steps: seq<Step>, n: NodeName, deletion: bool)
    decreases |steps|
  {
    steps != [] ==>
      && Enabled(s, steps[0])
      && !(if deletion then ObservesDeletion(s, steps[0], n) else ObservesCreation(s, steps[0], n))
      && Unobserved(Fire(s, steps[0]), steps[1..], n, deletion)
  }

  /** As long as what is expected on a node has not been observed, no reconcile begins. */
  lemma {:induction false} ExpectedIsAwaited(s: State, steps: seq<Step>, t: State, n: NodeName, deletion: bool)
    requires Runs(s, steps, t) && Unobserved(s, steps, n, deletion) && n in (if deletion then s.deletes else s.creates)
    ensures n in (if deletion then t.deletes else t.creates) && SameReconcile(steps)
    decreases |steps|
  {
    if steps != [] {
      ExpectationChanges(s, steps[0]);
      ExpectedIsAwaited(Fire(s, steps[0]), steps[1..], t, n, deletion);
    }
  }

  /** So between a successful deletion, or a creation asked for, and the next reconcile there is a notification that is
      about a pod on its node, or a call about it fails. */
  lemma CallsAreAwaited(s: State, step: Step, steps: seq<Step>, t: State)
    requires Enabled(s, step) && (step.DeleteOk? || step.Expect?) && Runs(Fire(s, step), steps, t)
    requires Unobserved(Fire(s, step), steps, if step.DeleteOk? then s.pods[step.id].node else step.n, step.DeleteOk?)
    ensures SameReconcile(steps)
  {
    ExpectationChanges(s, step);
    ExpectedIsAwaited(Fire(s, step), steps, t, if step.DeleteOk? then s.pods[step.id].node else step.n, step.DeleteOk?);
  }
}
