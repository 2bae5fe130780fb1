/** The event handler that tells the DaemonSet's expectations about deleted pods. A graceful deletion shows up as any
    number of updates with a deletion timestamp followed by the final delete; it must be counted once. */
module DaemonDeletionEvents {
  import opened Prelude

  type Uid = nat

  /** An event about one pod. `resolved` says whether the pod's controller reference leads to a DaemonSet. */
  datatype Event =
    | CreateEvent(uid: Uid, terminating: bool, resolved: bool)
    | UpdateEvent(uid: Uid, terminating: bool, resolved: bool, sameVersion: bool)
    | DeleteEvent(uid: Uid, resolved: bool)

  /** The UIDs whose deletion was counted while they still exist, and all countings so far. */
  datatype State = State(cache: set<Uid>, observed: seq<Uid>)

  const INITIAL := State({}, [])

  function PodDeleted(s: State, uid: Uid, resolved: bool, isDeleted: bool): State {
    if !resolved then s
    else
      var counted := if uid in s.cache then s else State(s.cache + {uid}, s.observed + [uid]);
      if isDeleted then counted.(cache := counted.cache - {uid}) else counted
  }

  function Handled(s: State, e: Event): State {
    match e
    case CreateEvent(uid, terminating, resolved) => if terminating then PodDeleted(s, uid, resolved, true) else s
    case UpdateEvent(uid, terminating, resolved, sameVersion) =>
      if !sameVersion && terminating then PodDeleted(s, uid, resolved, false) else s
    case DeleteEvent(uid, resolved) => PodDeleted(s, uid, resolved, true)
  }

  function HandledAll(trace: seq<Event>): State {
    if trace == [] then INITIAL else Handled(HandledAll(trace[..|trace| - 1]), trace[|trace| - 1])
  }

  /** The handler with its cache; `observed` stands for the calls of DeletionObserved on the expectations. */
  class PodEventHandler {
    var deletionUIDCache: set<Uid>
    var observed: seq<Uid>

    function Abstract(): State
      reads this
    {
      State(deletionUIDCache, observed)
    }

    constructor ()
      ensures Abstract() == INITIAL
    {
      deletionUIDCache, observed := {}, [];
    }

    method Create(uid: Uid, terminating: bool, resolved: bool)
      modifies this
      ensures Abstract() == Handled(old(Abstract()), CreateEvent(uid, terminating, resolved))
    {
      if terminating {
        Delete(uid, resolved);
      }
    }

    method Update(uid: Uid, terminating: bool, resolved: bool, sameVersion: bool)
      modifies this
      ensures Abstract() == Handled(old(Abstract()), UpdateEvent(uid, terminating, resolved, sameVersion))
    {
      if sameVersion {
        return;
      }
      if terminating {
        DeletePod(uid, resolved, false);
      }
    }

    method Delete(uid: Uid, resolved: bool)
      modifies this
      ensures Abstract() == Handled(old(Abstract()), DeleteEvent(uid, resolved))
    {
      DeletePod(uid, resolved, true);
    }

    method DeletePod(uid: Uid, resolved: bool, isDeleted: bool)
      modifies this
      ensures Abstract() == PodDeleted(old(Abstract()), uid, resolved, isDeleted)
    {
      if !resolved {
        return;
      }
      var loaded := uid in deletionUIDCache;
      if !loaded {
        deletionUIDCache := deletionUIDCache + {uid};
        observed := observed + [uid];
      }
      if isDeleted {
        deletionUIDCache := deletionUIDCache - {uid};
      }
    }
  }

  /** A pod whose controller reference leads to no DaemonSet is not counted, cached or forgotten, whatever happens to
      it; nor is one that just shows up, or is updated, without a deletion timestamp. */
  lemma IgnoredEvents(s: State, e: Event)
    requires !e.resolved || (e.CreateEvent? && !e.terminating) || (e.UpdateEvent? && !e.terminating)
    ensures Handled(s, e) == s
  {
  }

  function Count(observed: seq<Uid>, uid: Uid): nat { multiset(observed)[uid] }

  // ---------------------------------------------------------------------------------------------------------
  // The life of one pod as the handler sees it, among the events of all others.

  /** A pod first seen alive is Alive, Terminating, Gone; a pod first seen with a deletion timestamp is Late, with or
      without an update since, and LateGone. */
  datatype Phase = Unseen | Alive | Terminating | Gone | Late | LateTerminating | LateGone

  /** What an event does to the phase of its pod; None if it cannot come in that phase. */
  function Advance(phase: Phase, e: Event): Option<Phase> {
    match e
    case CreateEvent(_, terminating, _) =>
      if phase.Unseen? then Some(if terminating then Late else Alive) else None
    case UpdateEvent(_, terminating, _, same) =>
      (match phase
       case Alive => Some(if terminating && !same then Terminating else Alive)
       case Terminating => if terminating then Some(Terminating) else None
       case Late => if !terminating then None else Some(if same then Late else LateTerminating)
       case LateTerminating => if terminating then Some(LateTerminating) else None
       case _ => None)
    case DeleteEvent(_, _) =>
      if phase.Alive? || phase.Terminating? then Some(Gone)
      else if phase.Late? || phase.LateTerminating? then Some(LateGone)
      else None
  }

  /** The phase of a pod after a trace; None if the trace is not one a pod can go through, or an owner was not found. */
  function PhaseAfter(trace: seq<Event>, uid: Uid): Option<Phase> {
    if trace == [] then Some(Unseen)
    else
      var e := trace[|trace| - 1];
      match PhaseAfter(trace[..|trace| - 1], uid)
      case None => None
      case Some(phase) =>
        if e.uid != uid then Some(phase)
        else if !e.resolved then None
        else Advance(phase, e)
  }

  function CountIn(phase: Phase): nat {
    match phase
    case Unseen => 0
    case Alive => 0
    case Terminating => 1
    case Gone => 1
    case Late => 1
    case LateTerminating => 2
    case LateGone => 2
  }

  predicate CachedIn(phase: Phase) {
    phase.Terminating? || phase.LateTerminating?
  }

  /** How often a pod was counted and whether it is in the cache are as its phase says. */
  ghost predicate Agrees(s: State, uid: Uid, phase: Phase) {
    Count(s.observed, uid) == CountIn(phase) && (uid in s.cache <==> CachedIn(phase))
  }

  lemma OtherEvent(s: State, e: Event, uid: Uid, phase: Phase)
    requires Agrees(s, uid, phase) && e.uid != uid
    ensures Agrees(Handled(s, e), uid, phase)
  {
  }

  /** An event about a pod counts it as often as its phase says, whatever was counted before. */
  lemma EventCounts(s: State, e: Event, phase: Phase)
    requires (e.uid in s.cache <==> CachedIn(phase)) && e.resolved && Advance(phase, e).Some?
    ensures var t, after := Handled(s, e), Advance(phase, e).value;
            && Count(t.observed, e.uid) == Count(s.observed, e.uid) + CountIn(after) - CountIn(phase)
            && (e.uid in t.cache <==> CachedIn(after))
  {
  }

  lemma OwnEvent(s: State, e: Event, phase: Phase)
    requires Agrees(s, e.uid, phase) && e.resolved && Advance(phase, e).Some?
    ensures Agrees(Handled(s, e), e.uid, Advance(phase, e).value)
  {
    EventCounts(s, e, phase);
  }

  /** For every interleaving with the events of other pods, the number of times a pod was counted and whether it is
      in the cache depend on its own phase only. */
  lemma {:induction false} CountedByPhase(trace: seq<Event>, uid: Uid)
    requires PhaseAfter(trace, uid).Some?
    ensures Agrees(HandledAll(trace), uid, PhaseAfter(trace, uid).value)
  {
    if trace != [] {
      var n := |trace| - 1;
      CountedByPhase(trace[..n], uid);
      var s, phase := HandledAll(trace[..n]), PhaseAfter(trace[..n], uid).value;
      if trace[n].uid == uid {
        OwnEvent(s, trace[n], phase);
      } else {
        OtherEvent(s, trace[n], uid, phase);
      }
    }
  }

  /** A pod first seen alive is counted exactly once, at its first terminating update or else at its deletion, and
      leaves nothing behind in the cache. */
  lemma CountedExactlyOnce(trace: seq<Event>, uid: Uid)
    requires PhaseAfter(trace, uid) in {Some(Alive), Some(Terminating), Some(Gone)}
    ensures Count(HandledAll(trace).observed, uid) == if PhaseAfter(trace, uid) == Some(Alive) then 0 else 1
    ensures PhaseAfter(trace, uid) == Some(Gone) ==> uid !in HandledAll(trace).cache
  {
    CountedByPhase(trace, uid);
  }

  /** When a pod is gone, it was counted once if and only if the handler first saw it without a deletion timestamp;
      otherwise it was counted twice. */
  lemma CountedOnceIffFirstSeenAlive(trace: seq<Event>, uid: Uid, k: nat)
    requires k < |trace| && trace[k].uid == uid && trace[k].CreateEvent?
    requires PhaseAfter(trace, uid) in {Some(Gone), Some(LateGone)}
    ensures Count(HandledAll(trace).observed, uid) == 1 <==> !trace[k].terminating
    ensures Count(HandledAll(trace).observed, uid) == 2 <==> trace[k].terminating
    ensures uid !in HandledAll(trace).cache
  {
    CountedByPhase(trace, uid);
    FirstSightDecides(trace, uid, k);
  }

  predicate IsLate(phase: Phase) {
    phase.Late? || phase.LateTerminating? || phase.LateGone?
  }

  lemma {:induction false} FirstSightDecides(trace: seq<Event>, uid: Uid, k: nat)
    requires k < |trace| && trace[k].uid == uid && trace[k].CreateEvent? && PhaseAfter(trace, uid).Some?
    ensures !PhaseAfter(trace, uid).value.Unseen?
    ensures IsLate(PhaseAfter(trace, uid).value) <==> trace[k].terminating
    decreases |trace|
  {
    var n := |trace| - 1;
    if k < n {
      FirstSightDecides(trace[..n], uid, k);
    }
  }
}
