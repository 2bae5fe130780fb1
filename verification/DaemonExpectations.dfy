/** The DaemonSet's expectation counters while a sync runs and the event handler is notified, in any order: creations
    and deletions come back, fail or are skipped, calls that return an error may have had their effect all the same, and
    events about any pods of the DaemonSet arrive at any time. */
module DaemonExpectations {
  import opened Prelude
  import opened Machines
  import Events = DaemonDeletionEvents

  type Uid = Events.Uid

  /** The two counters; what the sync has still to do; the pods it created, the pods stored by calls that returned an
      error, and those of both notified alive; the creations refused by a namespace that is torn down; the pods it
      deleted; the handler, and what it knows of each pod. */
  datatype State = State(
    add: int, del: int,
    toCreate: nat, created: set<Uid>, lost: set<Uid>, reported: set<Uid>, torn: nat,
    toDelete: set<Uid>, deleted: set<Uid>,
    handler: Events.State, phases: map<Uid, Events.Phase>
  )

  function PhaseOf(s: State, uid: Uid): Events.Phase {
    if uid in s.phases then s.phases[uid] else Events.Unseen
  }

  datatype Step =
    | CreateOk(uid: Uid)
    | CreateFails
    | LostStored(uid: Uid)                  // by a call that returns an error, of this sync or an earlier one
    | CreateTorn
    | SkipRest
    | DeleteOk(uid: Uid)
    | DeleteFails(uid: Uid)
    | Notify(e: Events.Event)

  predicate Enabled(s: State, step: Step) {
    match step
    case CreateOk(uid) => s.toCreate > 0 && uid !in s.created + s.lost && PhaseOf(s, uid).Unseen?
    case CreateFails => s.toCreate > 0
    // The error is a CreateFails of its own, before or after; a request may even be carried out after its sync.
    case LostStored(uid) => uid !in s.created + s.lost && PhaseOf(s, uid).Unseen?
    case CreateTorn => s.toCreate > 0
    case SkipRest => true
    case DeleteOk(uid) => uid in s.toDelete
    case DeleteFails(uid) => uid in s.toDelete
    // Pods of the DaemonSet are created by the DaemonSet.
    case Notify(e) =>
      && e.resolved && Events.Advance(PhaseOf(s, e.uid), e).Some?
      && (e.CreateEvent? ==> e.uid in s.created + s.lost)
  }

  function Fire(s: State, step: Step): State
    requires Enabled(s, step)
  {
    match step
    case CreateOk(uid) => s.(toCreate := s.toCreate - 1, created := s.created + {uid})
    case CreateFails => s.(toCreate := s.toCreate - 1, add := s.add - 1)
    case LostStored(uid) => s.(lost := s.lost + {uid})
    case CreateTorn => s.(toCreate := s.toCreate - 1, torn := s.torn + 1)
    case SkipRest => s.(toCreate := 0, add := s.add - s.toCreate)
    case DeleteOk(uid) => s.(toDelete := s.toDelete - {uid}, deleted := s.deleted + {uid})
    case DeleteFails(uid) => s.(toDelete := s.toDelete - {uid}, del := s.del - 1)
    case Notify(e) =>
      var alive := e.CreateEvent? && !e.terminating;
      var handler := Events.Handled(s.handler, e);
      s.(handler := handler,
         phases := s.phases[e.uid := Events.Advance(PhaseOf(s, e.uid), e).value],
         reported := if alive then s.reported + {e.uid} else s.reported,
         add := if alive then s.add - 1 else s.add,
         del := s.del - (|handler.observed| - |s.handler.observed|))
  }

  ghost predicate Runs(s: State, steps: seq<Step>, t: State) { Run(Fire, s, steps, t) }

  /** The expectations have just been set; the handler may be in the middle of other pods' lives, and pods of earlier
      syncs may still have to be notified. */
  ghost predicate Begun(s: State) {
    && s.add == s.toCreate && s.del == |s.toDelete|
    && s.created == {} && s.reported == {} && s.torn == 0 && s.deleted == {}
    && s.handler.observed == []
    && (forall uid :: uid in s.handler.cache <==> Events.CachedIn(PhaseOf(s, uid)))
  }

  // ---------------------------------------------------------------------------------------------------------
  // What every step keeps. `base` says what was known of each pod when the expectations were set.

  ghost predicate Balanced(s: State) {
    && s.add == s.toCreate + s.torn + |s.created| - |s.reported|
    && s.del == |s.toDelete| + |s.deleted| - |s.handler.observed|
    && s.toDelete !! s.deleted
  }

  ghost predicate ReportedSound(s: State) {
    && s.reported <= s.created + s.lost && s.created !! s.lost
    && forall uid :: uid in s.reported ==> !PhaseOf(s, uid).Unseen?
  }

  ghost predicate CountsFrom(base: State, s: State) {
    forall uid :: && Events.Count(s.handler.observed, uid)
                     == Events.CountIn(PhaseOf(s, uid)) - Events.CountIn(PhaseOf(base, uid))
                  && (uid in s.handler.cache <==> Events.CachedIn(PhaseOf(s, uid)))
  }

  ghost predicate Inv(base: State, s: State) { Balanced(s) && ReportedSound(s) && CountsFrom(base, s) }

  lemma BalancedKept(s: State, step: Step)
    requires Balanced(s) && ReportedSound(s) && Enabled(s, step)
    ensures Balanced(Fire(s, step))
  {
    match step {
      case CreateOk(uid) => AddOne(s.created, uid);
      case DeleteOk(uid) =>
        AddOne(s.toDelete, uid);
        AddOne(s.deleted, uid);
      case DeleteFails(uid) => AddOne(s.toDelete, uid);
      case Notify(e) => AddOne(s.reported, e.uid);
      case _ =>
    }
  }

  lemma ReportedKept(s: State, step: Step)
    requires ReportedSound(s) && Enabled(s, step)
    ensures ReportedSound(Fire(s, step))
  {
  }

  lemma CountsKept(base: State, s: State, step: Step)
    requires CountsFrom(base, s) && Enabled(s, step)
    ensures CountsFrom(base, Fire(s, step))
  {
    if step.Notify? {
      Events.EventCounts(s.handler, step.e, PhaseOf(s, step.e.uid));
    }
  }

  lemma {:induction false} RunKeepsInv(base: State, s: State, steps: seq<Step>, t: State)
    requires Inv(base, s) && Runs(s, steps, t)
    ensures Inv(base, t)
    decreases |steps|
  {
    if steps != [] {
      BalancedKept(s, steps[0]);
      ReportedKept(s, steps[0]);
      CountsKept(base, s, steps[0]);
      RunKeepsInv(base, Fire(s, steps[0]), steps[1..], t);
    }
  }

  /** The counters move only so: a failing call lowers its own by one, what is skipped lowers the creations by as many,
      and a pod that shows up alive lowers them by one; a creation refused by a namespace being torn down lowers
      nothing. */
  lemma CounterChanges(s: State, step: Step)
    requires Enabled(s, step)
    ensures Fire(s, step).add
            == s.add - (if step.CreateFails? then 1
                        else if step.SkipRest? then s.toCreate
                        else if step.Notify? && step.e.CreateEvent? && !step.e.terminating then 1
                        else 0)
    ensures !step.Notify? ==> Fire(s, step).del == s.del - (if step.DeleteFails? then 1 else 0)
    ensures step.Notify? && !step.e.DeleteEvent? && !step.e.terminating ==> Fire(s, step).del == s.del
    ensures Fire(s, step).torn == s.torn + if step.CreateTorn? then 1 else 0
  {
  }

  lemma {:induction false} TornCounted(s: State, steps: seq<Step>, t: State)
    requires Runs(s, steps, t)
    ensures t.torn >= s.torn && ((exists i :: 0 <= i < |steps| && steps[i].CreateTorn?) ==> t.torn > s.torn)
    decreases |steps|
  {
    if steps != [] {
      CounterChanges(s, steps[0]);
      TornCounted(Fire(s, steps[0]), steps[1..], t);
      if i :| 0 <= i < |steps| && steps[i].CreateTorn? && !steps[0].CreateTorn? {
        assert steps[1..][i - 1].CreateTorn?;
      }
    }
  }

  // ---------------------------------------------------------------------------------------------------------
  // When the DaemonSet may act again.

  /** The expectations count as fulfilled. */
  predicate Fulfilled(s: State) { s.add <= 0 && s.del <= 0 }

  /** The pods created and not reported. */
  ghost function MissingPods(s: State): set<Uid> { s.created - s.reported }

  /** The pods reported that no creation is expected for: their calls returned an error, which was counted as well. */
  ghost function ExtraPods(s: State): set<Uid> { s.reported * s.lost }

  lemma ReportedSizes(s: State)
    requires ReportedSound(s)
    ensures |s.created| - |s.reported| == |MissingPods(s)| - |ExtraPods(s)|
  {
    DifferenceSizes(s.created, s.reported);
    assert s.reported - s.created == ExtraPods(s);
  }

  lemma NothingMissing(s: State)
    ensures |MissingPods(s)| == 0 <==> s.created <= s.reported
  {
    if s.created <= s.reported {
      assert MissingPods(s) == {};
    } else {
      var x :| x in s.created && x !in s.reported;
      assert x in MissingPods(s);
    }
  }

  /** At every moment of every interleaving, what is outstanding is exactly what has still to be done or reported, less
      what was counted without being expected. */
  lemma OutstandingExactly(base: State, steps: seq<Step>, s: State)
    requires Begun(base) && Runs(base, steps, s)
    ensures s.add == s.toCreate + s.torn + |MissingPods(s)| - |ExtraPods(s)|
    ensures s.reported !! s.lost ==> s.add >= 0
    ensures s.del == |s.toDelete| + |s.deleted| - |s.handler.observed|
  {
    RunKeepsInv(base, base, steps, s);
    ReportedSizes(s);
  }

  /** A creation refused by a namespace being torn down keeps the expectations from being fulfilled for good, unless a
      pod whose call returned an error makes up for it. */
  lemma TornStaysOutstanding(base: State, steps: seq<Step>, s: State)
    requires Begun(base) && Runs(base, steps, s) && exists i :: 0 <= i < |steps| && steps[i].CreateTorn?
    ensures s.reported !! s.lost ==> s.add > 0 && !Fulfilled(s)
  {
    TornCounted(base, steps, s);
    OutstandingExactly(base, steps, s);
    assert s.reported !! s.lost ==> ExtraPods(s) == {};
  }

  /** When the sync is over, the expectations are fulfilled if and only if the creations refused by a namespace being
      torn down and the pods created and not reported are no more than the pods reported without being expected, and at
      least as many deletions have been counted as pods deleted. Without lost replies: if and only if nothing was torn
      down, every pod created has been reported, and the same of deletions. */
  lemma FulfilledIff(base: State, steps: seq<Step>, s: State)
    requires Begun(base) && Runs(base, steps, s) && s.toCreate == 0 && s.toDelete == {}
    ensures Fulfilled(s) <==>
            s.torn + |MissingPods(s)| <= |ExtraPods(s)| && |s.deleted| <= |s.handler.observed|
    ensures s.reported !! s.lost ==>
              (Fulfilled(s) <==> s.torn == 0 && s.reported == s.created && |s.deleted| <= |s.handler.observed|)
  {
    RunKeepsInv(base, base, steps, s);
    OutstandingExactly(base, steps, s);
    assert s.reported !! s.lost ==> ExtraPods(s) == {};
    NothingMissing(s);
  }

  /** Nobody else deletes pods of the DaemonSet, and no pod is first seen with a deletion timestamp. */
  ghost predicate OnlyOurs(s: State) {
    forall uid :: uid in s.handler.observed ==> uid in s.deleted && !Events.IsLate(PhaseOf(s, uid))
  }

  lemma CountedOnce(base: State, s: State)
    requires CountsFrom(base, s) && OnlyOurs(s)
    ensures Distinct(s.handler.observed) && Elements(s.handler.observed) <= s.deleted
  {
    forall uid | uid in s.handler.observed
      ensures multiset(s.handler.observed)[uid] <= 1
    {
      assert Events.Count(s.handler.observed, uid) <= Events.CountIn(PhaseOf(s, uid));
    }
    SingleMeansDistinct(s.handler.observed);
  }

  /** Then the counter of deletions reaches zero exactly when every pod deleted has been counted. Without lost replies
      the counter of creations reaches zero exactly when every pod created has been reported; with them, exactly when
      the pods reported without being expected make up for what is missing. */
  lemma ZeroIffReported(base: State, steps: seq<Step>, s: State)
    requires Begun(base) && Runs(base, steps, s) && s.toCreate == 0 && s.toDelete == {} && OnlyOurs(s)
    ensures s.del >= 0
    ensures s.del == 0 <==> Elements(s.handler.observed) == s.deleted
    ensures s.add == 0 <==> s.torn + |MissingPods(s)| == |ExtraPods(s)|
    ensures s.reported !! s.lost ==> s.add >= 0 && (s.add == 0 <==> s.torn == 0 && s.reported == s.created)
  {
    RunKeepsInv(base, base, steps, s);
    OutstandingExactly(base, steps, s);
    CountedOnce(base, s);
    DistinctSize(s.handler.observed);
    SubsetFull(Elements(s.handler.observed), s.deleted);
    assert s.reported !! s.lost ==> ExtraPods(s) == {};
    NothingMissing(s);
  }

  // ---------------------------------------------------------------------------------------------------------
  // When it acts too early.

  /** When the sync is over, the expectations count as fulfilled although a deletion of ours has not been counted if and
      only if the creations count as fulfilled, and the countings that are not the first one of a pod of ours, those of
      other pods and second ones, are at least as many as the deletions missing. */
  lemma MaskedIff(base: State, steps: seq<Step>, s: State)
    requires Begun(base) && Runs(base, steps, s) && s.toCreate == 0 && s.toDelete == {}
    ensures var counted := Elements(s.handler.observed);
            Fulfilled(s) && !(s.deleted <= counted) <==>
            && s.torn + |MissingPods(s)| <= |ExtraPods(s)|
            && 0 < |s.deleted - counted| <= |s.handler.observed| - |counted * s.deleted|
  {
    FulfilledIff(base, steps, s);
    var counted := Elements(s.handler.observed);
    SubsetFull(counted * s.deleted, s.deleted);
    assert s.deleted - counted * s.deleted == s.deleted - counted;
  }

  /** They count as fulfilled although a pod created has not been reported if and only if the deletions count as
      fulfilled, and the pods reported whose calls returned an error are at least as many as those missing and the
      creations refused by a namespace being torn down. */
  lemma MissingMaskedIff(base: State, steps: seq<Step>, s: State)
    requires Begun(base) && Runs(base, steps, s) && s.toCreate == 0 && s.toDelete == {}
    ensures Fulfilled(s) && !(s.created <= s.reported) <==>
            && |s.deleted| <= |s.handler.observed|
            && 0 < |MissingPods(s)| <= |ExtraPods(s)| - s.torn
  {
    FulfilledIff(base, steps, s);
    NothingMissing(s);
  }

  /** Every deletion by somebody else is such a counting: it lowers the counter, and a pod of ours that has not been
      counted stays so. */
  lemma ForeignDeletionMasks(base: State, steps: seq<Step>, s: State, other: Uid)
    requires Begun(base) && Runs(base, steps, s) && other !in s.deleted && PhaseOf(s, other).Alive?
    ensures var step := Notify(Events.DeleteEvent(other, true));
            && Enabled(s, step) && Fire(s, step).del == s.del - 1 && Fire(s, step).deleted == s.deleted
            && s.deleted - Elements(Fire(s, step).handler.observed) == s.deleted - Elements(s.handler.observed)
  {
    RunKeepsInv(base, base, steps, s);
  }

  /** From every begun sync with one deletion, another pod's deletion ends in expectations fulfilled with the one of the
      sync missing. */
  lemma ForeignDeletionFulfils(base: State, ours: Uid, other: Uid) returns (t: State)
    requires Begun(base) && base.toCreate == 0 && base.toDelete == {ours}
    requires other != ours && PhaseOf(base, other).Alive?
    ensures Runs(base, [DeleteOk(ours), Notify(Events.DeleteEvent(other, true))], t)
    ensures t.toDelete == {} && Fulfilled(t) && ours in t.deleted && ours !in t.handler.observed
  {
    var steps := [DeleteOk(ours), Notify(Events.DeleteEvent(other, true))];
    var s1 := Fire(base, steps[0]);
    t := Fire(s1, steps[1]);
    RunThrough(Fire, [base, s1, t], steps, 0);
    assert steps[0..] == steps;
  }

  /** The first batch of a sync stores z; in the second one a call stores x and returns an error. */
  lemma ReplyLost(base: State, x: Uid, z: Uid) returns (t: State)
    requires Begun(base) && base.toCreate >= 3 && x != z && {x, z} !! base.lost
    requires PhaseOf(base, x).Unseen? && PhaseOf(base, z).Unseen?
    ensures Runs(base, [CreateOk(z), LostStored(x), CreateFails], t)
    ensures t == base.(toCreate := base.toCreate - 2, add := base.add - 1, created := {z}, lost := base.lost + {x})
  {
    var steps := [CreateOk(z), LostStored(x), CreateFails];
    var s1 := Fire(base, steps[0]);
    var s2 := Fire(s1, steps[1]);
    t := Fire(s2, steps[2]);
    RunThrough(Fire, [base, s1, s2, t], steps, 0);
    assert steps[0..] == steps;
  }

  /** The other call of the second batch stores y, and the rest is skipped. */
  lemma RestSkipped(s: State, y: Uid) returns (t: State)
    requires s.toCreate > 0 && y !in s.created + s.lost && PhaseOf(s, y).Unseen?
    ensures Runs(s, [CreateOk(y), SkipRest], t)
    ensures t == s.(toCreate := 0, add := s.add - (s.toCreate - 1), created := s.created + {y})
  {
    var steps := [CreateOk(y), SkipRest];
    var s1 := Fire(s, steps[0]);
    t := Fire(s1, steps[1]);
    RunThrough(Fire, [s, s1, t], steps, 0);
    assert steps[0..] == steps;
  }

  function ReportSteps(x: Uid, z: Uid): seq<Step> {
    [Notify(Events.CreateEvent(z, false, true)), Notify(Events.CreateEvent(x, false, true))]
  }

  lemma BothReported(s: State, x: Uid, z: Uid) returns (t: State)
    requires s.add == 2 && x != z && z in s.created && x in s.lost && s.reported == {}
    requires PhaseOf(s, x).Unseen? && PhaseOf(s, z).Unseen?
    ensures Runs(s, ReportSteps(x, z), t)
    ensures t.add == 0 && t.del == s.del && t.reported == {x, z}
    ensures t.created == s.created && t.toCreate == s.toCreate && t.toDelete == s.toDelete
  {
    var steps := ReportSteps(x, z);
    var s1 := Fire(s, steps[0]);
    t := Fire(s1, steps[1]);
    RunThrough(Fire, [s, s1, t], steps, 0);
    assert steps[0..] == steps;
  }

  /** From every begun sync with three creations or more, one lost reply ends with the creations fulfilled and a pod
      created not reported; with nothing to delete, the DaemonSet acts again. */
  lemma LostReplyFulfils(base: State, x: Uid, y: Uid, z: Uid) returns (steps: seq<Step>, t: State)
    requires Begun(base) && base.toCreate >= 3 && x != y && y != z && x != z && {x, y, z} !! base.lost
    requires PhaseOf(base, x).Unseen? && PhaseOf(base, y).Unseen? && PhaseOf(base, z).Unseen?
    ensures Runs(base, steps, t) && t.toCreate == 0
    ensures t.add == 0 && y in t.created && y !in t.reported
    ensures base.toDelete == {} ==> t.toDelete == {} && Fulfilled(t)
  {
    var s1 := ReplyLost(base, x, z);
    var s2 := RestSkipped(s1, y);
    RunsAppend(Fire, base, [CreateOk(z), LostStored(x), CreateFails], s1, [CreateOk(y), SkipRest], s2);
    t := BothReported(s2, x, z);
    steps := [CreateOk(z), LostStored(x), CreateFails] + [CreateOk(y), SkipRest];
    RunsAppend(Fire, base, steps, s2, ReportSteps(x, z), t);
    steps := steps + ReportSteps(x, z);
  }
}
