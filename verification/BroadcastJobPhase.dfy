/** The status of a BroadcastJob from one reconcile to the next: when it is finished, that it finishes once, and
    that nothing is created when or after it does. */
module BroadcastJobPhase {
  import opened Prelude
  import opened BroadcastJobPods

  type Time = int

  datatype CompletionPolicy = Always | Never

  datatype FailurePolicy = Pause | FailFast | Continue

  datatype Spec = Spec(completion: CompletionPolicy, deadline: Option<nat>, failure: FailurePolicy, paused: bool)

  datatype JobPhase = PhaseUnset | PhaseRunning | PhasePaused | PhaseFailed | PhaseCompleted

  datatype ConditionType = JobComplete | JobFailed | OtherCondition

  datatype Condition = Condition(kind: ConditionType, isTrue: bool) {
    predicate Finishing() { (kind.JobComplete? || kind.JobFailed?) && isTrue }
  }

  datatype Status = Status(
    phase: JobPhase,
    startTime: Option<Time>,
    completionTime: Option<Time>,
    conditions: seq<Condition>,
    active: int, failed: int, succeeded: int, desired: int
  )

  const NEW_STATUS := Status(PhaseUnset, None, None, [], 0, 0, 0, 0)

  /** What one reconcile finds: the time, the pods by class, and the nodes chosen (see BroadcastJobPods). The two
      counters are what the delete and create loops leave behind. */
  datatype Facts = Facts(
    now: Time,
    active: nat, failed: nat, succeeded: nat,
    desired: map<NodeName, Option<Pod>>,
    rest: seq<NodeName>,
    jobDeleted: bool,
    failedAfter: int, activeAfter: int
  )

  /** The nodes were chosen by GetNodesToRunPod, so a node in want of a pod is a desired node without one. */
  ghost predicate Consistent(f: Facts) {
    f.rest != [] ==> exists n :: n in f.desired && f.desired[n].None?
  }

  /** Choosing nodes yields consistent facts. */
  lemma ChosenIsConsistent(nodes: seq<NodeName>, existing: map<NodeName, Pod>,
                           fits: (Pod, NodeName) -> bool, fitsNew: NodeName -> bool, f: Facts, toDelete: seq<Pod>)
    requires Chosen(nodes, existing, fits, fitsNew, f.desired, f.rest, toDelete)
    ensures Consistent(f)
  {
    if f.rest != [] {
      RestMeansIncomplete(nodes, existing, fits, fitsNew, f.desired, f.rest, toDelete);
    }
  }

  ghost predicate AllDone(f: Facts) {
    f.desired != map[] && forall n :: n in f.desired ==> f.desired[n].Some? && !f.desired[n].value.Alive()
  }

  ghost predicate IsFinished(spec: Spec, st: Status) {
    spec.completion.Always? && exists c :: c in st.conditions && c.Finishing()
  }

  predicate PastDeadline(spec: Spec, st: Status, now: Time) {
    && spec.completion.Always? && spec.deadline.Some? && st.startTime.Some?
    && now - st.startTime.value >= spec.deadline.value
  }

  datatype Outcome = Outcome(status: Status, creating: bool, finishing: bool)

  function Finish(st: Status, kind: ConditionType, now: Time): Status {
    st.(conditions := st.conditions + [Condition(kind, true)], completionTime := Some(now))
  }

  /** The status after the start time, the phase and the counters have been filled in. */
  function FilledIn(st: Status, f: Facts): Status {
    st.(startTime := if st.startTime.None? then Some(f.now) else st.startTime,
        phase := if st.phase.PhaseUnset? then PhaseRunning else st.phase,
        active := f.active, failed := f.failed, succeeded := f.succeeded, desired := |f.desired|)
  }

  /** One reconcile as a function of the spec, the status it read and the facts it found. */
  ghost function Reconciled(spec: Spec, st: Status, f: Facts): Outcome {
    if IsFinished(spec, st) then Outcome(st, false, false)
    else
      var filled := FilledIn(st, f);
      if filled.phase.PhaseFailed? then Outcome(filled, false, false)
      else if spec.paused && (filled.phase.PhaseRunning? || filled.phase.PhasePaused?) then
        Outcome(filled.(phase := PhasePaused), false, false)
      else
        Acted(spec, if filled.phase.PhasePaused? then filled.(phase := PhaseRunning) else filled, f)
  }

  /** The rest of a reconcile, for a job that is neither finished, failed nor paused. */
  ghost function Acted(spec: Spec, st: Status, f: Facts): Outcome {
    if f.failed > 0 && spec.failure.Pause? then Outcome(st.(phase := PhasePaused), false, false)
    else
      var counted := st.(failed := f.failedAfter, active := f.activeAfter);
      if (f.failed > 0 && spec.failure.FailFast?) || PastDeadline(spec, st, f.now) then
        Outcome(Finish(counted.(phase := PhaseFailed), JobFailed, f.now), false, true)
      else
        var creating := !f.jobDeleted && f.rest != [];
        if spec.completion.Always? && AllDone(f) then
          Outcome(Finish(counted.(phase := PhaseCompleted), JobComplete, f.now), creating, true)
        else
          Outcome(counted, creating, false)
  }

  // ---------------------------------------------------------------------------------------------------------
  // What a round does, said on the spec, the status and the facts.

  /** The job has no true condition that it is complete or failed, or its policy disregards that. */
  ghost predicate GoesOn(spec: Spec, st: Status) {
    spec.completion == Never || forall c :: c in st.conditions && c.isTrue ==> c.kind == OtherCondition
  }

  /** A round comes to act: the job goes on, has not failed, and nothing pauses it. */
  ghost predicate Acts(spec: Spec, st: Status, f: Facts) {
    && GoesOn(spec, st) && st.phase != PhaseFailed
    && !(spec.paused && st.phase != PhaseCompleted)
    && !(f.failed > 0 && spec.failure == Pause)
  }

  /** Time to fail: a failed pod under FailFast, or the deadline, counted from the recorded start or from now. */
  ghost predicate TimeToFail(spec: Spec, st: Status, f: Facts) {
    || (f.failed > 0 && spec.failure == FailFast)
    || (spec.completion == Always && spec.deadline.Some?
        && f.now >= (if st.startTime.Some? then st.startTime.value else f.now) + spec.deadline.value)
  }

  /** Every desired node has a pod, and none of them will run on; there is a desired node. */
  ghost predicate AllPodsDone(f: Facts) {
    && |f.desired.Keys| > 0
    && forall n :: n in f.desired ==>
         f.desired[n].Some?
         && var p := f.desired[n].value; p.phase == Succeeded || p.phase == Failed || p.terminating
  }

  /** A round finishes the job if and only if it comes to act and it is time to fail, or the job runs to completion and
      all pods are done. It then adds one condition, of the right kind, and sets phase and completion time to match;
      otherwise it touches neither conditions nor completion time. */
  lemma FinishesIff(spec: Spec, st: Status, f: Facts)
    ensures var o := Reconciled(spec, st, f);
            var fails := TimeToFail(spec, st, f);
            && (o.finishing <==> Acts(spec, st, f) && (fails || (spec.completion == Always && AllPodsDone(f))))
            && (o.finishing ==>
                  && o.status.conditions == st.conditions + [Condition(if fails then JobFailed else JobComplete, true)]
                  && o.status.phase == (if fails then PhaseFailed else PhaseCompleted)
                  && o.status.completionTime == Some(f.now))
            && (!o.finishing ==>
                  o.status.conditions == st.conditions && o.status.completionTime == st.completionTime)
  {
    assert f.desired.Keys == {} ==> f.desired == map[];
  }

  /** The other phases: a round that does not finish the job leaves it paused if something pauses it, running if nothing
      does, and leaves alone what has failed or completed before. */
  lemma PhaseAfter(spec: Spec, st: Status, f: Facts)
    requires !Reconciled(spec, st, f).finishing && GoesOn(spec, st)
    ensures var phase := Reconciled(spec, st, f).status.phase;
            && (st.phase == PhaseFailed ==> phase == PhaseFailed)
            && (st.phase != PhaseFailed && !Acts(spec, st, f) ==> phase == PhasePaused)
            && (Acts(spec, st, f) ==> phase == if st.phase == PhaseCompleted then PhaseCompleted else PhaseRunning)
  {
  }

  /** A finished job is left as it is. Otherwise the start time is set once, the nodes and the succeeded pods are
      counted, and so are active and failed pods: as found if the round does not come to act, as left behind if it
      does. */
  lemma CountsAfter(spec: Spec, st: Status, f: Facts)
    ensures var t := Reconciled(spec, st, f).status;
            && (!GoesOn(spec, st) ==> t == st)
            && (GoesOn(spec, st) ==>
                  && t.startTime == (if st.startTime.Some? then st.startTime else Some(f.now))
                  && t.desired == |f.desired| && t.succeeded == f.succeeded
                  && (t.active, t.failed)
                     == if Acts(spec, st, f) then (f.activeAfter, f.failedAfter) else (f.active, f.failed))
  {
  }

  /** A round goes to create pods if and only if it comes to act, it is not time to fail, the job is not being deleted
      and there are nodes to run on. */
  lemma CreatesIff(spec: Spec, st: Status, f: Facts)
    ensures Reconciled(spec, st, f).creating <==>
            Acts(spec, st, f) && !TimeToFail(spec, st, f) && !f.jobDeleted && f.rest != []
  {
  }

  /** The job object a reconcile works on. */
  class BroadcastJob {
    const spec: Spec
    var status: Status

    constructor (spec: Spec, status: Status)
      ensures this.spec == spec && this.status == status
    {
      this.spec := spec;
      this.status := status;
    }

    method IsJobFinished() returns (finished: bool)
      ensures finished == IsFinished(spec, status)
    {
      if spec.completion == Never {
        return false;
      }
      for i := 0 to |status.conditions|
        invariant forall j :: 0 <= j < i ==> !status.conditions[j].Finishing()
      {
        var c := status.conditions[i];
        if (c.kind == JobComplete || c.kind == JobFailed) && c.isTrue {
          assert c in status.conditions && c.Finishing();
          return true;
        }
      }
      return false;
    }

    method FinishJob(kind: ConditionType, now: Time)
      modifies this
      ensures status == Finish(old(status), kind, now)
    {
      status := status.(conditions := status.conditions + [Condition(kind, true)]);
      status := status.(completionTime := Some(now));
    }

    /** The phase machine. `creating` says whether the create loop is entered with nodes to run pods on, `finishing`
        whether a finishing condition is added. */
    method Reconcile(f: Facts) returns (creating: bool, finishing: bool)
      modifies this
      ensures Outcome(status, creating, finishing) == Reconciled(spec, old(status), f)
    {
      creating, finishing := false, false;
      var finished := IsJobFinished();
      if finished {
        return;
      }
      if status.startTime == None {
        status := status.(startTime := Some(f.now));
      }
      if status.phase == PhaseUnset {
        status := status.(phase := PhaseRunning);
      }
      status := status.(active := f.active, failed := f.failed, succeeded := f.succeeded, desired := |f.desired|);
      if status.phase == PhaseFailed {
        return;
      }
      if spec.paused && (status.phase == PhaseRunning || status.phase == PhasePaused) {
        status := status.(phase := PhasePaused);
        return;
      }
      if !spec.paused && status.phase == PhasePaused {
        status := status.(phase := PhaseRunning);
      }
      creating, finishing := Act(f);
    }

    /** Failure handling, creation and completion. */
    method Act(f: Facts) returns (creating: bool, finishing: bool)
      modifies this
      ensures Outcome(status, creating, finishing) == Acted(spec, old(status), f)
    {
      creating, finishing := false, false;
      var jobFailed := false;
      if f.failed > 0 {
        if spec.failure == Pause {
          status := status.(phase := PhasePaused);
          return;
        } else if spec.failure == FailFast {
          jobFailed := true;
        }
      }
      if !jobFailed {
        jobFailed := PastDeadline(spec, status, f.now);
      }
      if jobFailed {
        status := status.(phase := PhaseFailed);
        FinishJob(JobFailed, f.now);
        finishing := true;
      } else {
        creating := !f.jobDeleted && f.rest != [];
        var complete := IsJobComplete(spec.completion == Never, f.desired);
        if complete {
          status := status.(phase := PhaseCompleted);
          FinishJob(JobComplete, f.now);
          finishing := true;
        }
      }
      status := status.(failed := f.failedAfter, active := f.activeAfter);
    }
  }

  // ---------------------------------------------------------------------------------------------------------
  // Runs: each reconcile reads the last stored status; storing its own may fail.

  datatype Round = Round(facts: Facts, stored: bool)

  /** The status stored after a number of rounds. */
  ghost function StoredAfter(spec: Spec, rounds: seq<Round>): Status {
    if rounds == [] then NEW_STATUS
    else
      var before := StoredAfter(spec, rounds[..|rounds| - 1]);
      var last := rounds[|rounds| - 1];
      if last.stored then Reconciled(spec, before, last.facts).status else before
  }

  /** What round k does. */
  ghost function RoundOutcome(spec: Spec, rounds: seq<Round>, k: nat): Outcome
    requires k < |rounds|
  {
    Reconciled(spec, StoredAfter(spec, rounds[..k]), rounds[k].facts)
  }

  function FinishingConditions(cs: seq<Condition>): nat {
    if cs == [] then 0
    else FinishingConditions(cs[..|cs| - 1]) + if cs[|cs| - 1].Finishing() then 1 else 0
  }

  /** Open: no finishing condition and no completion time. Closed: exactly one of each, and the job will not run
      again, because it is finished (policy Always) or because its phase says so (policy Never). */
  ghost predicate Open(st: Status) {
    && FinishingConditions(st.conditions) == 0 && st.completionTime.None?
    && !st.phase.PhaseFailed? && !st.phase.PhaseCompleted?
  }

  ghost predicate Closed(spec: Spec, st: Status) {
    && FinishingConditions(st.conditions) == 1 && st.completionTime.Some?
    && (spec.completion.Always? || st.phase.PhaseFailed?)
  }

  lemma {:induction false} CountedConditions(cs: seq<Condition>)
    ensures FinishingConditions(cs) > 0 <==> exists c :: c in cs && c.Finishing()
  {
    if cs != [] {
      CountedConditions(cs[..|cs| - 1]);
      assert cs == cs[..|cs| - 1] + [cs[|cs| - 1]];
    }
  }

  /** A round on an open job keeps it open or closes it, and a round that closes it creates nothing. */
  lemma OpenRound(spec: Spec, st: Status, f: Facts)
    requires Open(st) && Consistent(f)
    ensures var o := Reconciled(spec, st, f);
            && (o.finishing ==> Closed(spec, o.status) && !o.creating)
            && (!o.finishing ==> Open(o.status))
  {
  }

  /** A round on a closed job changes neither its conditions nor its completion time, and creates nothing. */
  lemma ClosedRound(spec: Spec, st: Status, f: Facts)
    requires Closed(spec, st)
    ensures var o := Reconciled(spec, st, f);
            && Closed(spec, o.status) && !o.creating && !o.finishing
            && o.status.conditions == st.conditions && o.status.completionTime == st.completionTime
  {
    CountedConditions(st.conditions);
  }

  ghost predicate Sound(rounds: seq<Round>) {
    forall i :: 0 <= i < |rounds| ==> Consistent(rounds[i].facts)
  }

  lemma {:induction false} OpenOrClosed(spec: Spec, rounds: seq<Round>)
    requires Sound(rounds)
    ensures var st := StoredAfter(spec, rounds); Open(st) || Closed(spec, st)
  {
    if rounds != [] {
      var n := |rounds| - 1;
      OpenOrClosed(spec, rounds[..n]);
      var before := StoredAfter(spec, rounds[..n]);
      if Open(before) {
        OpenRound(spec, before, rounds[n].facts);
      } else {
        ClosedRound(spec, before, rounds[n].facts);
      }
    }
  }

  lemma {:induction false} ClosedForGood(spec: Spec, rounds: seq<Round>, k: nat)
    requires Sound(rounds) && k <= |rounds| && Closed(spec, StoredAfter(spec, rounds[..k]))
    ensures Closed(spec, StoredAfter(spec, rounds))
    ensures StoredAfter(spec, rounds).conditions == StoredAfter(spec, rounds[..k]).conditions
    ensures StoredAfter(spec, rounds).completionTime == StoredAfter(spec, rounds[..k]).completionTime
    decreases |rounds|
  {
    if k == |rounds| {
      assert rounds[..k] == rounds;
    } else {
      var n := |rounds| - 1;
      assert rounds[..n][..k] == rounds[..k];
      ClosedForGood(spec, rounds[..n], k);
      ClosedRound(spec, StoredAfter(spec, rounds[..n]), rounds[n].facts);
    }
  }

  /** Under both completion policies and any failures to store: at most one finishing condition is ever stored. */
  lemma FinishesAtMostOnce(spec: Spec, rounds: seq<Round>)
    requires Sound(rounds)
    ensures FinishingConditions(StoredAfter(spec, rounds).conditions) <= 1
    ensures StoredAfter(spec, rounds).completionTime.Some?
            <==> FinishingConditions(StoredAfter(spec, rounds).conditions) == 1
  {
    OpenOrClosed(spec, rounds);
  }

  /** Once stored, the completion time is never rewritten. */
  lemma CompletionTimeIsFinal(spec: Spec, rounds: seq<Round>, k: nat)
    requires Sound(rounds) && k <= |rounds|
    requires StoredAfter(spec, rounds[..k]).completionTime.Some?
    ensures StoredAfter(spec, rounds).completionTime == StoredAfter(spec, rounds[..k]).completionTime
  {
    OpenOrClosed(spec, rounds[..k]);
    ClosedForGood(spec, rounds, k);
  }

  /** The round that finishes the job creates no pod, and neither does any round after it has been stored. */
  lemma NothingCreatedAtOrAfterTheEnd(spec: Spec, rounds: seq<Round>, k: nat, m: nat)
    requires Sound(rounds) && k <= m < |rounds|
    requires RoundOutcome(spec, rounds, k).finishing
    ensures !RoundOutcome(spec, rounds, k).creating
    ensures rounds[k].stored && k < m ==>
              !RoundOutcome(spec, rounds, m).creating && !RoundOutcome(spec, rounds, m).finishing
  {
    OpenOrClosed(spec, rounds[..k]);
    var before := StoredAfter(spec, rounds[..k]);
    if Closed(spec, before) {
      ClosedRound(spec, before, rounds[k].facts);
    } else {
      OpenRound(spec, before, rounds[k].facts);
      if rounds[k].stored && k < m {
        assert rounds[..k + 1][..k] == rounds[..k];
        assert rounds[..m][..k + 1] == rounds[..k + 1];
        ClosedForGood(spec, rounds[..m], k + 1);
        ClosedRound(spec, StoredAfter(spec, rounds[..m]), rounds[m].facts);
      }
    }
  }

  // ---------------------------------------------------------------------------------------------------------
  // Why a stored job is finished.

  /** Round k was stored and finished the job with this condition. */
  ghost predicate FinishedBy(spec: Spec, rounds: seq<Round>, k: nat, c: Condition)
    requires k < |rounds|
  {
    && rounds[k].stored && RoundOutcome(spec, rounds, k).finishing
    && c == Condition(if TimeToFail(spec, StoredAfter(spec, rounds[..k]), rounds[k].facts) then JobFailed
                      else JobComplete, true)
  }

  /** Every condition ever stored was added by a stored round: one in which it was time to fail if it says failed, one
      that found all pods done if it says complete. */
  lemma {:induction false} EveryConditionHasItsRound(spec: Spec, rounds: seq<Round>, c: Condition) returns (k: nat)
    requires c in StoredAfter(spec, rounds).conditions
    ensures k < |rounds| && FinishedBy(spec, rounds, k, c)
    ensures var st, f := StoredAfter(spec, rounds[..k]), rounds[k].facts;
            if c.kind == JobFailed then TimeToFail(spec, st, f) else spec.completion == Always && AllPodsDone(f)
  {
    var n := |rounds| - 1;
    var before := StoredAfter(spec, rounds[..n]);
    if c in before.conditions {
      k := EveryConditionHasItsRound(spec, rounds[..n], c);
      assert rounds[..n][..k] == rounds[..k];
    } else {
      k := n;
      FinishesIff(spec, before, rounds[n].facts);
    }
  }

  /** The start time is that of the first stored round. */
  lemma {:induction false} StartTimeIsFirstStored(spec: Spec, rounds: seq<Round>, k: nat)
    requires k < |rounds| && rounds[k].stored && forall i :: 0 <= i < k ==> !rounds[i].stored
    ensures StoredAfter(spec, rounds).startTime == Some(rounds[k].facts.now)
  {
    var n := |rounds| - 1;
    CountsAfter(spec, StoredAfter(spec, rounds[..n]), rounds[n].facts);
    if k < n {
      StartTimeIsFirstStored(spec, rounds[..n], k);
    } else {
      NothingStored(spec, rounds[..n]);
    }
  }

  lemma {:induction false} NothingStored(spec: Spec, rounds: seq<Round>)
    requires forall i :: 0 <= i < |rounds| ==> !rounds[i].stored
    ensures StoredAfter(spec, rounds) == NEW_STATUS
  {
    if rounds != [] {
      NothingStored(spec, rounds[..|rounds| - 1]);
    }
  }
}
