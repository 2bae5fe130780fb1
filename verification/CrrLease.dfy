/** The not-ready lease of a ContainerRecreateRequest: finalizer first, then the pod's not-ready key, then the
    annotation; on release the key first, then the finalizer. Every API call is a step of its own, the controller
    may crash between any two of them, and it reads both objects from caches that lag behind the API server but
    never move backwards. Reconciles of one request are serial. */
module CrrLease {
  import opened Machines

  /** One stored version of the request. */
  datatype Crr = Crr(exists_: bool, deleting: bool, completed: bool, finalizer: bool, annotated: bool) {
    /** To be released: gone, being deleted, or completed. */
    predicate Closing() { !exists_ || deleting || completed }
  }

  /** One stored version of the pod of that name; a pod that is created anew gets the next incarnation. */
  datatype Pod = Pod(exists_: bool, incarnation: nat, terminating: bool, key: bool) {
    predicate Live() { exists_ && !terminating }
  }

  /** Where the controller is. The arguments are the versions a reconcile read when it began. */
  datatype Pc =
    | Idle
    | Completing(crrCopy: nat)
    | AddingFinalizer(podCopy: nat)
    | AddingKey(podCopy: nat)
    | Annotating
    | RemovingKey(podCopy: nat)
    | RemovingFinalizer

  /** crrs and pods hold all versions stored so far, the current ones last. `gate` says whether the pods of this
      name carry the readiness gate, `others` whether the request carries finalizers of other parties; `keyAt` is the
      version in which the key was last added. */
  datatype State = State(
    crrs: seq<Crr>, pods: seq<Pod>,
    crrSeen: nat, podSeen: nat,
    gate: bool, others: bool, pc: Pc, keyAt: nat
  ) {
    predicate WellFormed() { crrSeen < |crrs| && podSeen < |pods| }

    function CrrNow(): Crr requires WellFormed() { crrs[|crrs| - 1] }

    function PodNow(): Pod requires WellFormed() { pods[|pods| - 1] }

    predicate CrrFresh() { crrSeen == |crrs| - 1 }

    predicate PodFresh() { podSeen == |pods| - 1 }
  }

  datatype Step =
    // the controller
    | Begin(expired: bool, acquire: bool)
    | WriteCompletion
    | WriteFinalizer
    | WriteKey
    | WriteAnnotation
    | EraseKey
    | EraseFinalizer
    | Abort                       // a crash, or an API call that returns an error
    // everybody else
    | RequestCompleted
    | RequestDeleted
    | RequestTouched
    | PodTerminating
    | PodRemoved
    | PodCreated
    | PodTouched
    // the caches
    | CrrCacheAdvances
    | PodCacheAdvances

  /** Where a reconcile goes from the copies it has read. */
  function Plan(s: State, expired: bool, acquire: bool): Pc
    requires s.WellFormed()
  {
    var crr, pod := s.crrs[s.crrSeen], s.pods[s.podSeen];
    if !crr.exists_ then Idle
    else if crr.deleting || crr.completed then
      if crr.finalizer then RemovingKey(s.podSeen) else Idle
    else if !pod.Live() || expired then Completing(s.crrSeen)
    else if acquire && !crr.annotated then
      if !s.gate then Annotating
      else if crr.finalizer then AddingKey(s.podSeen)
      else AddingFinalizer(s.podSeen)
    else Idle
  }

  /** The copy the reconcile began with tells it to remove the key at all. */
  predicate Removes(s: State)
    requires s.WellFormed() && s.pc.RemovingKey?
  {
    s.pc.podCopy < |s.pods| && s.pods[s.pc.podCopy].Live() && s.gate
  }

  predicate Enabled(s: State, step: Step) {
    && s.WellFormed()
    && match step
       case Begin(_, _) => s.pc.Idle?
       // Updates carry the version they were computed from and are refused when it is not the current one.
       case WriteCompletion => s.pc.Completing? && s.pc.crrCopy == |s.crrs| - 1 && s.CrrNow().exists_
       case WriteFinalizer =>
         // No finalizer can be added to an object that is being deleted.
         s.pc.AddingFinalizer? && s.CrrFresh() && s.CrrNow().exists_ && !s.CrrNow().deleting
       case WriteKey =>
         && s.pc.AddingKey? && s.pc.podCopy < |s.pods|
         && (s.pods[s.pc.podCopy].key || (s.pods[s.podSeen].exists_ && (s.pods[s.podSeen].key || s.PodFresh())))
       case WriteAnnotation => s.pc.Annotating? && s.CrrNow().exists_
       case EraseKey =>
         s.pc.RemovingKey? && (Removes(s) ==> s.pods[s.podSeen].exists_ && (s.pods[s.podSeen].key ==> s.PodFresh()))
       case EraseFinalizer => s.pc.RemovingFinalizer? && s.CrrFresh() && s.CrrNow().exists_
       case Abort => !s.pc.Idle?
       case RequestCompleted => s.CrrNow().exists_
       case RequestDeleted => s.CrrNow().exists_
       case RequestTouched => s.CrrNow().exists_
       case PodTerminating => s.PodNow().exists_
       case PodRemoved => s.PodNow().exists_
       case PodCreated => !s.PodNow().exists_
       case PodTouched => s.PodNow().exists_
       case CrrCacheAdvances => !s.CrrFresh()
       case PodCacheAdvances => !s.PodFresh()
  }

  function StoreCrr(s: State, crr: Crr): State { s.(crrs := s.crrs + [crr]) }

  function StorePod(s: State, pod: Pod): State { s.(pods := s.pods + [pod]) }

  function Fire(s: State, step: Step): State
    requires Enabled(s, step)
  {
    match step
    case Begin(expired, acquire) => s.(pc := Plan(s, expired, acquire))
    case WriteCompletion => StoreCrr(s, s.CrrNow().(completed := true)).(pc := Idle)
    case WriteFinalizer => StoreCrr(s, s.CrrNow().(finalizer := true)).(pc := AddingKey(s.pc.podCopy))
    case WriteKey =>
      if s.pods[s.pc.podCopy].key || s.pods[s.podSeen].key then s.(pc := Annotating)
      else StorePod(s, s.PodNow().(key := true)).(keyAt := |s.pods|, pc := Annotating)
    case WriteAnnotation => StoreCrr(s, s.CrrNow().(annotated := true)).(pc := Idle)
    case EraseKey =>
      if Removes(s) && s.pods[s.podSeen].key then StorePod(s, s.PodNow().(key := false)).(pc := RemovingFinalizer)
      else s.(pc := RemovingFinalizer)
    case EraseFinalizer =>
      var crr := s.CrrNow();
      StoreCrr(s, crr.(finalizer := false, exists_ := !crr.deleting || s.others)).(pc := Idle)
    case Abort => s.(pc := Idle)
    case RequestCompleted => StoreCrr(s, s.CrrNow().(completed := true))
    case RequestDeleted =>
      var crr := s.CrrNow();
      StoreCrr(s, if crr.finalizer || s.others then crr.(deleting := true) else crr.(exists_ := false))
    case RequestTouched => StoreCrr(s, s.CrrNow())
    case PodTerminating => StorePod(s, s.PodNow().(terminating := true))
    case PodRemoved => StorePod(s, s.PodNow().(exists_ := false))
    case PodCreated => StorePod(s, Pod(true, s.PodNow().incarnation + 1, false, false))
    case PodTouched => StorePod(s, s.PodNow())
    case CrrCacheAdvances => s.(crrSeen := s.crrSeen + 1)
    case PodCacheAdvances => s.(podSeen := s.podSeen + 1)
  }

  /** A new request for a running pod that does not hold its key; the controller has seen both. */
  function Initial(gate: bool, others: bool): State {
    State([Crr(true, false, false, false, false)], [Pod(true, 0, false, false)], 0, 0, gate, others, Idle, 0)
  }

  ghost predicate Runs(s: State, steps: seq<Step>, t: State) { Run(Fire, s, steps, t) }

  // ---------------------------------------------------------------------------------------------------------
  // What a reconcile sets out to do.

  /** The cached request is neither gone, nor being deleted, nor completed. */
  ghost predicate SeenOpen(s: State)
    requires s.WellFormed()
  {
    var crr := s.crrs[s.crrSeen];
    crr.exists_ && !crr.deleting && !crr.completed
  }

  /** The cached request is to go on: the cached pod is live and the request has not expired. */
  ghost predicate SeenUsable(s: State, expired: bool)
    requires s.WellFormed()
  {
    SeenOpen(s) && s.pods[s.podSeen].exists_ && !s.pods[s.podSeen].terminating && !expired
  }

  /** A reconcile completes an open request exactly if its pod is gone or going or it has expired; releases a closing
      one exactly if it has the finalizer; and takes the lease for one that asks for it and is not annotated yet:
      finalizer first, then the key, or just the annotation on a pod without the readiness gate. */
  lemma SetsOut(s: State, expired: bool, acquire: bool)
    requires s.WellFormed() && s.pc.Idle?
    ensures var t := Fire(s, Begin(expired, acquire));
            var crr := s.crrs[s.crrSeen];
            var takes := SeenUsable(s, expired) && acquire && !crr.annotated;
            && t == s.(pc := t.pc)
            && (t.pc == Completing(s.crrSeen) <==> SeenOpen(s) && !SeenUsable(s, expired))
            && (t.pc == RemovingKey(s.podSeen) <==> crr.exists_ && !SeenOpen(s) && crr.finalizer)
            && (t.pc == AddingFinalizer(s.podSeen) <==> takes && s.gate && !crr.finalizer)
            && (t.pc == AddingKey(s.podSeen) <==> takes && s.gate && crr.finalizer)
            && (t.pc == Annotating <==> takes && !s.gate)
            && (t.pc == Idle <==> (SeenUsable(s, expired) && !takes)
                                  || !crr.exists_ || (!SeenOpen(s) && !crr.finalizer))
  {
  }

  /** So an open request whose pod is gone or going, or which has expired, gets completed. */
  lemma UselessRequestCompletes(s: State, expired: bool) returns (t: State)
    requires s.WellFormed() && s.pc.Idle? && s.CrrFresh() && SeenOpen(s) && !SeenUsable(s, expired)
    ensures Runs(s, [Begin(expired, false), WriteCompletion], t)
    ensures t.WellFormed() && t.CrrNow() == s.CrrNow().(completed := true) && t.pods == s.pods
  {
    var s1 := Fire(s, Begin(expired, false));
    t := Fire(s1, WriteCompletion);
    var steps := [Begin(expired, false), WriteCompletion];
    RunThrough(Fire, [s, s1, t], steps, 0);
    assert steps[0..] == steps;
  }

  // ---------------------------------------------------------------------------------------------------------
  // What is to be shown.

  /** A live pod is held not-ready. */
  ghost predicate KeyHeld(s: State)
    requires s.WellFormed()
  {
    s.PodNow().Live() && s.PodNow().key
  }

  /** Somebody is still responsible for that: the request exists and cannot go away without a release. */
  ghost predicate LeaseSafe(s: State)
    requires s.WellFormed()
  {
    KeyHeld(s) ==> s.CrrNow().exists_ && s.CrrNow().finalizer
  }

  /** The cached pod shows a key that is held. */
  ghost predicate KeyObserved(s: State)
    requires s.WellFormed()
  {
    KeyHeld(s) ==> s.pods[s.podSeen].key
  }

  // ---------------------------------------------------------------------------------------------------------
  // The invariant.

  /** Versions only move towards closing, and a request with the finalizer exists. */
  ghost predicate HistoriesSound(s: State) {
    && s.WellFormed()
    && (s.CrrNow().finalizer ==> s.CrrNow().exists_)
    && (forall i, j :: 0 <= i <= j < |s.crrs| && s.crrs[i].Closing() ==> s.crrs[j].Closing())
  }

  /** From just before the key was added until now, the pod has been the same live incarnation; the key shows in every
      version since, and the cache has reached at least the version before. */
  ghost predicate KeyTraced(s: State)
    requires s.WellFormed()
  {
    KeyHeld(s) ==>
      && s.gate
      && 1 <= s.keyAt < |s.pods| && s.podSeen >= s.keyAt - 1
      && (forall j :: s.keyAt - 1 <= j < |s.pods| ==> s.pods[j].Live())
      && (forall j :: s.keyAt <= j < |s.pods| ==> s.pods[j].key)
      && !s.pods[s.keyAt - 1].key
  }

  /** Once the finalizer has been taken away, everything the controller can still read says the request is closing. */
  ghost predicate FinalizerTraced(s: State)
    requires s.WellFormed()
  {
    !s.CrrNow().finalizer && (exists j :: 0 <= j < |s.crrs| && s.crrs[j].finalizer) ==> s.crrs[s.crrSeen].Closing()
  }

  ghost predicate PcSound(s: State)
    requires s.WellFormed()
  {
    match s.pc
    case AddingFinalizer(podCopy) => s.gate && podCopy <= s.podSeen
    case AddingKey(podCopy) =>
      s.gate && podCopy <= s.podSeen && s.CrrNow().exists_ && s.CrrNow().finalizer
    case RemovingKey(podCopy) =>
      podCopy <= s.podSeen && s.crrs[s.crrSeen].Closing() && (KeyHeld(s) ==> podCopy >= s.keyAt - 1)
    case RemovingFinalizer => s.crrs[s.crrSeen].Closing() && !KeyHeld(s)
    case _ => true
  }

  ghost predicate Inv(s: State) {
    HistoriesSound(s) && KeyTraced(s) && FinalizerTraced(s) && PcSound(s) && LeaseSafe(s)
  }

  lemma HistoriesKept(s: State, step: Step)
    requires HistoriesSound(s) && Enabled(s, step)
    ensures HistoriesSound(Fire(s, step))
  {
  }

  /** The steps that store a version of the pod. */
  predicate StoresPod(step: Step) {
    step.WriteKey? || step.EraseKey? || step.PodTerminating? || step.PodRemoved? || step.PodCreated? || step.PodTouched?
  }

  lemma KeyTracedKeptByPod(s: State, step: Step)
    requires s.WellFormed() && KeyTraced(s) && PcSound(s) && Enabled(s, step) && StoresPod(step)
    ensures Fire(s, step).WellFormed() && KeyTraced(Fire(s, step))
  {
  }

  lemma KeyTracedKept(s: State, step: Step)
    requires s.WellFormed() && KeyTraced(s) && PcSound(s) && Enabled(s, step)
    ensures Fire(s, step).WellFormed() && KeyTraced(Fire(s, step))
  {
    if StoresPod(step) {
      KeyTracedKeptByPod(s, step);
    } else {
      assert Fire(s, step).pods == s.pods;
    }
  }

  lemma FinalizerTracedKept(s: State, step: Step)
    requires HistoriesSound(s) && FinalizerTraced(s) && PcSound(s) && Enabled(s, step)
    ensures Fire(s, step).WellFormed() && FinalizerTraced(Fire(s, step))
  {
  }

  /** Removing the key works exactly when the cached pod shows it: with an older copy the call returns without doing
      anything, and the release goes on as if the key were gone. */
  lemma EraseKeyWorksIffObserved(s: State)
    requires Inv(s) && s.pc.RemovingKey? && Enabled(s, EraseKey)
    ensures Fire(s, EraseKey).WellFormed()
    ensures !KeyHeld(Fire(s, EraseKey)) <==> KeyObserved(s)
  {
  }

  /** The key goes exactly if the pod was live when the reconcile read it, has the readiness gate and shows the key in
      the cache now; nothing else about the pod changes. It is added exactly if neither copy shows it. */
  lemma KeyCalls(s: State)
    ensures Enabled(s, EraseKey) && s.pc.podCopy < |s.pods| ==>
              var copy := s.pods[s.pc.podCopy];
              Fire(s, EraseKey).pods
              == if copy.exists_ && !copy.terminating && s.gate && s.pods[s.podSeen].key
                 then s.pods + [s.PodNow().(key := false)] else s.pods
    ensures Enabled(s, WriteKey) ==>
              Fire(s, WriteKey).pods
              == if s.pods[s.pc.podCopy].key || s.pods[s.podSeen].key then s.pods
                 else s.pods + [s.PodNow().(key := true)]
  {
  }

  lemma PcSoundKept(s: State, step: Step)
    requires Inv(s) && Enabled(s, step) && (step.EraseKey? ==> KeyObserved(s))
    ensures Fire(s, step).WellFormed() && PcSound(Fire(s, step))
  {
  }

  lemma LeaseSafeKept(s: State, step: Step)
    requires Inv(s) && Enabled(s, step)
    ensures Fire(s, step).WellFormed() && LeaseSafe(Fire(s, step))
  {
  }

  lemma StepKeepsInv(s: State, step: Step)
    requires Inv(s) && Enabled(s, step) && (step.EraseKey? ==> KeyObserved(s))
    ensures Inv(Fire(s, step))
  {
    HistoriesKept(s, step);
    KeyTracedKept(s, step);
    FinalizerTracedKept(s, step);
    PcSoundKept(s, step);
    LeaseSafeKept(s, step);
  }

  /** Whenever the run removes the key, the cached pod shows it. */
  ghost predicate ObservedRun(s: State, steps: seq<Step>)
    decreases |steps|
  {
    steps != [] ==>
      && Enabled(s, steps[0])
      && (steps[0].EraseKey? ==> KeyObserved(s))
      && ObservedRun(Fire(s, steps[0]), steps[1..])
  }

  lemma {:induction false} RunKeepsInv(s: State, steps: seq<Step>, t: State)
    requires Inv(s) && Runs(s, steps, t) && ObservedRun(s, steps)
    ensures Inv(t)
    decreases |steps|
  {
    if steps != [] {
      StepKeepsInv(s, steps[0]);
      RunKeepsInv(Fire(s, steps[0]), steps[1..], t);
    }
  }

  /** With crashes anywhere: a live pod is never held not-ready without the request that holds it, as long as the
      cached pod shows the key whenever it is to be removed. */
  lemma HeldKeyHasOwner(gate: bool, others: bool, steps: seq<Step>, t: State)
    requires Runs(Initial(gate, others), steps, t) && ObservedRun(Initial(gate, others), steps)
    ensures t.WellFormed() && LeaseSafe(t)
  {
    RunKeepsInv(Initial(gate, others), steps, t);
  }

  // ---------------------------------------------------------------------------------------------------------
  // Without that, the key leaks.

  /** The cache of requests catches up. */
  lemma {:induction false} CrrCatchesUp(s: State) returns (steps: seq<Step>, t: State)
    requires s.WellFormed()
    ensures Runs(s, steps, t)
    ensures t == s.(crrSeen := |s.crrs| - 1)
    ensures forall i :: 0 <= i < |steps| ==> steps[i].CrrCacheAdvances?
    decreases |s.crrs| - s.crrSeen
  {
    if s.CrrFresh() {
      steps, t := [], s;
    } else {
      var rest;
      rest, t := CrrCatchesUp(Fire(s, CrrCacheAdvances));
      steps := [CrrCacheAdvances] + rest;
      RunPrepends(Fire, s, CrrCacheAdvances, rest, t);
    }
  }

  /** No reconcile begins. */
  ghost predicate SameReconcile(steps: seq<Step>) {
    forall i :: 0 <= i < |steps| ==> !steps[i].Begin?
  }

  /** A release with a pod cache that has not seen the key ends with the key held by nobody. */
  lemma UnobservedKeyLeaks(s: State) returns (steps: seq<Step>, t: State)
    requires Inv(s) && s.pc.RemovingKey? && !KeyObserved(s)
    ensures Runs(s, steps, t) && SameReconcile(steps)
    ensures t.WellFormed() && !LeaseSafe(t)
  {
    assert s.pods[s.pc.podCopy].Live() && s.pods[s.podSeen].Live();
    var s1 := Fire(s, EraseKey);
    var wait, s2 := CrrCatchesUp(s1);
    t := Fire(s2, EraseFinalizer);
    assert [EraseFinalizer][1..] == [];
    assert Runs(s2, [EraseFinalizer], t);
    RunsAppend(Fire, s1, wait, s2, [EraseFinalizer], t);
    RunPrepends(Fire, s, EraseKey, wait + [EraseFinalizer], t);
    steps := [EraseKey] + (wait + [EraseFinalizer]);
  }

  /** Within a reconcile, a key that the cached pod shows stays shown, and no key is added. */
  lemma ObservedStays(s: State, step: Step)
    requires Inv(s) && s.pc.RemovingKey? && KeyObserved(s) && Enabled(s, step) && Fire(s, step).pc.RemovingKey?
    ensures Fire(s, step).WellFormed() && KeyObserved(Fire(s, step))
  {
  }

  lemma {:induction false} ObservedKeyIsSafe(s: State, steps: seq<Step>, t: State)
    requires Inv(s) && (s.pc.RemovingKey? ==> KeyObserved(s)) && Runs(s, steps, t) && SameReconcile(steps)
    ensures t.WellFormed() && LeaseSafe(t)
    decreases |steps|
  {
    if steps != [] {
      StepKeepsInv(s, steps[0]);
      if s.pc.RemovingKey? && Fire(s, steps[0]).pc.RemovingKey? {
        ObservedStays(s, steps[0]);
      }
      ObservedKeyIsSafe(Fire(s, steps[0]), steps[1..], t);
    }
  }

  /** Some continuation of the reconcile has a live pod held by nobody. */
  ghost predicate LeakFollows(s: State) {
    exists steps, t :: Runs(s, steps, t) && SameReconcile(steps) && t.WellFormed() && !LeaseSafe(t)
  }

  /** Wherever a reconcile stands, with crashes and with everybody else moving: it can lead to a leak if and only if it
      is about to remove a key that the cached pod does not show. */
  lemma LeaksIffUnobserved(s: State)
    requires Inv(s)
    ensures LeakFollows(s) <==> s.pc.RemovingKey? && !KeyObserved(s)
  {
    if s.pc.RemovingKey? && !KeyObserved(s) {
      var steps, t := UnobservedKeyLeaks(s);
    } else {
      forall steps, t | Runs(s, steps, t) && SameReconcile(steps)
        ensures t.WellFormed() && LeaseSafe(t)
      {
        ObservedKeyIsSafe(s, steps, t);
      }
    }
  }

  /** The lease is taken on a pod with the readiness gate, and then the request completes. */
  lemma LeaseTaken() returns (steps: seq<Step>, t: State)
    ensures Runs(Initial(true, false), steps, t) && ObservedRun(Initial(true, false), steps)
    ensures t.WellFormed() && t.pc.Idle? && t.podSeen == 0 && !t.pods[0].key && KeyHeld(t)
    ensures t.CrrNow().exists_ && t.CrrNow().completed && t.CrrNow().finalizer
  {
    var s0 := Initial(true, false);
    var first, u := FinalizerTaken();
    var second;
    second, t := KeyTaken(u);
    RunsAppend(Fire, s0, first, u, second, t);
    steps := first + second;
    NoEraseMeansObserved(s0, steps, t);
  }

  lemma FinalizerTaken() returns (steps: seq<Step>, t: State)
    ensures Runs(Initial(true, false), steps, t)
    ensures forall i :: 0 <= i < |steps| ==> !steps[i].EraseKey?
    ensures t == Initial(true, false).(crrs := t.crrs, pc := AddingKey(0))
    ensures |t.crrs| == 2 && t.crrs[1] == Crr(true, false, false, true, false)
  {
    var s0 := Initial(true, false);
    var s1 := Fire(s0, Begin(false, true));
    t := Fire(s1, WriteFinalizer);
    steps := [Begin(false, true), WriteFinalizer];
    RunThrough(Fire, [s0, s1, t], steps, 0);
    assert steps[0..] == steps;
  }

  lemma KeyTaken(s: State) returns (steps: seq<Step>, t: State)
    requires s.WellFormed() && s.pc == AddingKey(0) && s.podSeen == 0
    requires |s.pods| == 1 && s.pods[0].Live() && !s.pods[0].key
    requires s.CrrNow() == Crr(true, false, false, true, false)
    ensures Runs(s, steps, t)
    ensures forall i :: 0 <= i < |steps| ==> !steps[i].EraseKey?
    ensures t.WellFormed() && t.pc.Idle? && t.podSeen == 0 && !t.pods[0].key && KeyHeld(t)
    ensures t.CrrNow().exists_ && t.CrrNow().completed && t.CrrNow().finalizer
  {
    var s1 := Fire(s, WriteKey);
    var s2 := Fire(s1, WriteAnnotation);
    t := Fire(s2, RequestCompleted);
    steps := [WriteKey, WriteAnnotation, RequestCompleted];
    RunThrough(Fire, [s, s1, s2, t], steps, 0);
    assert steps[0..] == steps;
  }

  lemma {:induction false} NoEraseMeansObserved(s: State, steps: seq<Step>, t: State)
    requires Runs(s, steps, t) && forall i :: 0 <= i < |steps| ==> !steps[i].EraseKey?
    ensures ObservedRun(s, steps)
    decreases |steps|
  {
    if steps != [] {
      NoEraseMeansObserved(Fire(s, steps[0]), steps[1..], t);
    }
  }

  /** Such a release is reachable: the cache of requests is faster than the cache of pods. */
  lemma KeyCanLeak() returns (steps: seq<Step>, t: State)
    ensures Runs(Initial(true, false), steps, t)
    ensures t.WellFormed() && !LeaseSafe(t)
  {
    var s0 := Initial(true, false);
    var first, s1 := LeaseTaken();
    RunKeepsInv(s0, first, s1);
    var second, s2 := RequestSeen(s1);
    RunsAppend(Fire, s0, first, s1, second, s2);
    NoEraseMeansObserved(s1, second, s2);
    RunKeepsInv(s1, second, s2);
    var third;
    third, t := UnobservedKeyLeaks(s2);
    RunsAppend(Fire, s0, first + second, s2, third, t);
    steps := first + second + third;
  }

  /** The cache of requests catches up, the cache of pods stays where it is, and a reconcile begins. */
  lemma RequestSeen(s: State) returns (steps: seq<Step>, t: State)
    requires s.WellFormed() && s.pc.Idle?
    requires s.CrrNow().exists_ && s.CrrNow().completed && s.CrrNow().finalizer
    ensures Runs(s, steps, t)
    ensures t == s.(crrSeen := |s.crrs| - 1, pc := RemovingKey(s.podSeen))
    ensures forall i :: 0 <= i < |steps| ==> !steps[i].EraseKey?
  {
    var wait, u := CrrCatchesUp(s);
    t := Fire(u, Begin(false, false));
    assert [Begin(false, false)][1..] == [];
    assert Runs(u, [Begin(false, false)], t);
    RunsAppend(Fire, s, wait, u, [Begin(false, false)], t);
    steps := wait + [Begin(false, false)];
  }

  // ---------------------------------------------------------------------------------------------------------
  // Release completes.

  /** Left alone, the two caches catch up. */
  lemma {:induction false} CachesCatchUp(s: State) returns (steps: seq<Step>, t: State)
    requires s.WellFormed()
    ensures Runs(s, steps, t)
    ensures t == s.(crrSeen := |s.crrs| - 1, podSeen := |s.pods| - 1)
    ensures forall i :: 0 <= i < |steps| ==> steps[i].CrrCacheAdvances? || steps[i].PodCacheAdvances?
    decreases |s.crrs| - s.crrSeen + |s.pods| - s.podSeen
  {
    if s.CrrFresh() && s.PodFresh() {
      steps, t := [], s;
    } else {
      var step := if s.CrrFresh() then PodCacheAdvances else CrrCacheAdvances;
      var rest, u := CachesCatchUp(Fire(s, step));
      steps, t := [step] + rest, u;
      assert steps[1..] == rest;
    }
  }

  /** Once the request is completed or being deleted, caches that catch up and one reconcile without interruption leave
      neither key nor finalizer. */
  lemma ReleaseCompletes(s: State) returns (steps: seq<Step>, t: State)
    requires Inv(s) && s.pc.Idle? && s.CrrNow().Closing()
    ensures Runs(s, steps, t)
    ensures t.WellFormed() && !KeyHeld(t) && !(t.CrrNow().exists_ && t.CrrNow().finalizer)
    ensures s.CrrNow().exists_ && s.CrrNow().finalizer && s.CrrNow().deleting && !s.others ==> !t.CrrNow().exists_
    ensures s.CrrNow().exists_ && (s.others || !s.CrrNow().deleting) ==> t.CrrNow().exists_
    ensures forall i :: 0 <= i < |steps| ==>
              steps[i] in {CrrCacheAdvances, PodCacheAdvances, Begin(false, false), EraseKey, EraseFinalizer}
  {
    var wait, u := CachesCatchUp(s);
    if !(u.CrrNow().exists_ && u.CrrNow().finalizer) {
      return wait, u;
    }
    var release, v := ReleaseOnFreshCaches(u);
    RunsAppend(Fire, s, wait, u, release, v);
    steps, t := wait + release, v;
  }

  lemma ReleaseOnFreshCaches(s: State) returns (steps: seq<Step>, t: State)
    requires s.WellFormed() && s.pc.Idle? && s.CrrFresh() && s.PodFresh()
    requires s.CrrNow().Closing() && s.CrrNow().exists_ && s.CrrNow().finalizer
    requires KeyHeld(s) ==> s.gate
    ensures steps == [Begin(false, false), EraseKey, EraseFinalizer] && Runs(s, steps, t)
    ensures t.WellFormed() && !KeyHeld(t) && !(t.CrrNow().exists_ && t.CrrNow().finalizer)
    ensures t.CrrNow().exists_ <==> s.others || !s.CrrNow().deleting
  {
    var s1 := Fire(s, Begin(false, false));
    var s2 := Fire(s1, EraseKey);
    t := Fire(s2, EraseFinalizer);
    steps := [Begin(false, false), EraseKey, EraseFinalizer];
    RunThrough(Fire, [s, s1, s2, t], steps, 0);
    assert steps[0..] == steps;
  }

  // ---------------------------------------------------------------------------------------------------------
  // The lease can be taken, and deletion waits for its release.

  /** On fresh caches one undisturbed reconcile takes the lease: finalizer, key and annotation on a pod with the
      readiness gate that does not have the key yet. */
  lemma LeaseCompletes(s: State) returns (t: State)
    requires s.WellFormed() && s.pc.Idle? && s.CrrFresh() && s.PodFresh() && s.gate
    requires SeenUsable(s, false) && !s.CrrNow().annotated && !s.CrrNow().finalizer && !s.PodNow().key
    ensures Runs(s, [Begin(false, true), WriteFinalizer, WriteKey, WriteAnnotation], t)
    ensures t.WellFormed() && t.pc.Idle? && KeyHeld(t)
    ensures t.CrrNow() == s.CrrNow().(finalizer := true, annotated := true)
  {
    var s1 := Fire(s, Begin(false, true));
    var s2 := Fire(s1, WriteFinalizer);
    var s3 := Fire(s2, WriteKey);
    t := Fire(s3, WriteAnnotation);
    var steps := [Begin(false, true), WriteFinalizer, WriteKey, WriteAnnotation];
    RunThrough(Fire, [s, s1, s2, s3, t], steps, 0);
    assert steps[0..] == steps;
  }

  /** A deleted request stays, marked, as long as anybody's finalizer is on it, and goes at once otherwise. */
  lemma DeletionWaitsForFinalizers(s: State)
    requires Enabled(s, RequestDeleted)
    ensures var t := Fire(s, RequestDeleted);
            && t.WellFormed()
            && (t.CrrNow().exists_ <==> s.CrrNow().finalizer || s.others)
            && (t.CrrNow().exists_ ==> t.CrrNow().deleting && t.CrrNow().finalizer == s.CrrNow().finalizer)
  {
  }
}
