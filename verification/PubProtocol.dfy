/** Admission of pod operations by any number of concurrent webhooks, in any number of replicas, together with the
    budget's controller. All of them share one stored object and write it only by compare-and-swap on its resource
    version; what they read before may be arbitrarily old. Nothing here relies on the webhooks' local mutex. */
module PubProtocol {
  import opened Prelude
  import opened Machines
  import opened PubStatus

  type HookId = nat

  // Attempts of the conflict retry.
  const CONFLICT_RETRY_STEPS: nat := 4

  datatype Request = Request(pod: PodName, op: Operation, dryRun: bool)

  datatype Verdict =
    | AdmittedFree                          // no budget needed
    | AdmittedDryRun
    | Admitted(epoch: nat, index: nat)      // paid for by that charge
    | Denied

  /** Where one call of the validating webhook stands. */
  datatype Hook =
    | Reading(req: Request, attempt: nat, refresh: bool)
    | Updating(req: Request, attempt: nat, base: nat, at: Time, next: Status)
    | Awaiting(req: Request, epoch: nat, index: nat)
    | Finished(req: Request, verdict: Verdict)

  datatype Commit = Commit(payer: HookId, charge: Charge)

  /** What happened since one write of the controller: the status it wrote, the pods it counted as available
      for that, and the charges stored on top of it. */
  datatype Epoch = Epoch(published: Status, available: set<PodName>, commits: seq<Commit>)

  /** The controller between its read and its write. */
  datatype Sync = Idle | Writing(base: nat, next: Status, available: set<PodName>)

  /** versions[k] is the status stored under resource version k; the last one is the stored object. */
  datatype State = State(versions: seq<Status>, epochs: seq<Epoch>, hooks: map<HookId, Hook>, sync: Sync) {
    predicate WellFormed() { versions != [] && epochs != [] }

    function Current(): nat requires WellFormed() { |versions| - 1 }

    function Stored(): Status requires WellFormed() { versions[|versions| - 1] }
  }

  function Charges(commits: seq<Commit>): seq<Charge> {
    seq(|commits|, i requires 0 <= i < |commits| => commits[i].charge)
  }

  datatype Step =
    | Begin(w: HookId, req: Request, free: bool, seen: nat)
    | ReadCaches(w: HookId, local: nat, informer: nat, at: Time)
    | ReadStore(w: HookId, at: Time)
    | ReadFails(w: HookId)
    | TryUpdate(w: HookId)
    | UpdateFails(w: HookId)
    | Reply(w: HookId)
    | ReplyLost(w: HookId)
    | SyncRead(base: nat, pods: seq<PodInfo>, desired: nat, now: Time)
    | SyncWrite
    | Touch                                 // somebody writes the object without touching its status

  predicate Enabled(s: State, step: Step) {
    && s.WellFormed()
    && match step
       case Begin(w, req, free, seen) => w !in s.hooks && seen < |s.versions|
       case ReadCaches(w, local, informer, at) =>
         && w in s.hooks && s.hooks[w].Reading? && !s.hooks[w].refresh
         && local < |s.versions| && informer < |s.versions|
       case ReadStore(w, at) => w in s.hooks && s.hooks[w].Reading? && s.hooks[w].refresh
       case ReadFails(w) => w in s.hooks && s.hooks[w].Reading? && s.hooks[w].refresh
       case TryUpdate(w) => w in s.hooks && s.hooks[w].Updating?
       case UpdateFails(w) => w in s.hooks && s.hooks[w].Updating?
       case Reply(w) => w in s.hooks && s.hooks[w].Awaiting?
       case ReplyLost(w) => w in s.hooks && s.hooks[w].Awaiting?
       case SyncRead(base, pods, desired, now) => s.sync.Idle? && base < |s.versions|
       case SyncWrite => s.sync.Writing?
       case Touch => true
  }

  /** The checks before the budget is charged. `free` stands for the pod-side reasons (the pod opted out, is not
      ready or inconsistent, has no budget, or its operation is not protected). */
  predicate AdmittedWithoutBudget(st: Status, pod: PodName, free: bool) {
    free || st.desiredAvailable == 0 || st.Recorded(pod)
  }

  /** The working copy has been read; check it, and go on to store it unless this is a dry run. */
  function AfterRead(h: Hook, base: nat, copy: Status, at: Time): Hook
    requires h.Reading?
  {
    match Decremented(copy, h.req.pod, h.req.op, at)
    case Err(_) => Finished(h.req, Denied)
    case Ok(next) =>
      if h.req.dryRun then Finished(h.req, AdmittedDryRun)
      else Updating(h.req, h.attempt, base, at, next)
  }

  function Fire(s: State, step: Step): State
    requires Enabled(s, step)
  {
    match step
    case Begin(w, req, free, seen) =>
      s.(hooks := s.hooks[w := if AdmittedWithoutBudget(s.versions[seen], req.pod, free)
                               then Finished(req, AdmittedFree) else Reading(req, 0, false)])
    case ReadCaches(w, local, informer, at) =>
      var base := if informer > local then informer else local;
      s.(hooks := s.hooks[w := AfterRead(s.hooks[w], base, s.versions[base], at)])
    case ReadStore(w, at) =>
      s.(hooks := s.hooks[w := AfterRead(s.hooks[w], s.Current(), s.Stored(), at)])
    case ReadFails(w) =>
      s.(hooks := s.hooks[w := Finished(s.hooks[w].req, Denied)])
    case TryUpdate(w) =>
      var h := s.hooks[w];
      if h.base == s.Current() then Committed(s, w)
      else if h.attempt + 1 < CONFLICT_RETRY_STEPS then
        s.(hooks := s.hooks[w := Reading(h.req, h.attempt + 1, true)])
      else
        s.(hooks := s.hooks[w := Finished(h.req, Denied)])
    case UpdateFails(w) =>
      s.(hooks := s.hooks[w := Finished(s.hooks[w].req, Denied)])
    case Reply(w) =>
      var h := s.hooks[w];
      s.(hooks := s.hooks[w := Finished(h.req, Admitted(h.epoch, h.index))])
    case ReplyLost(w) =>
      s.(hooks := s.hooks[w := Finished(s.hooks[w].req, Denied)])
    case SyncRead(base, pods, desired, now) =>
      var next := Recalculated(s.versions[base], pods, desired, now);
      s.(sync := Writing(base, next, AvailablePods(pods, next.disrupted.Keys + next.unavailable.Keys)))
    case SyncWrite =>
      if s.sync.base == s.Current() then
        State(s.versions + [s.sync.next], s.epochs + [Epoch(s.sync.next, s.sync.available, [])], s.hooks, Idle)
      else
        s.(sync := Idle)
    case Touch =>
      s.(versions := s.versions + [s.Stored()])
  }

  /** The compare-and-swap of hook w succeeds: a new version, one more charge in the running epoch. */
  function Committed(s: State, w: HookId): State
    requires s.WellFormed() && w in s.hooks && s.hooks[w].Updating?
  {
    var h := s.hooks[w];
    var e := |s.epochs| - 1;
    var epoch := s.epochs[e];
    var paid := Commit(w, Charge(h.req.pod, h.req.op, h.at));
    State(
      s.versions + [h.next],
      s.epochs[e := epoch.(commits := epoch.commits + [paid])],
      s.hooks[w := Awaiting(h.req, e, |epoch.commits|)],
      s.sync)
  }

  const INITIAL := State([ZERO_STATUS], [Epoch(ZERO_STATUS, {}, [])], map[], Idle)

  ghost predicate Runs(s: State, steps: seq<Step>, t: State) { Run(Fire, s, steps, t) }

  // ---------------------------------------------------------------------------------------------------------
  // The verdicts, step by step.

  /** An operation is admitted without charge exactly if the pod is exempt, the version read wants nothing available, or
      it has the pod on record. */
  lemma FreeIff(s: State, w: HookId, req: Request, free: bool, seen: nat)
    requires Enabled(s, Begin(w, req, free, seen))
    ensures var t := Fire(s, Begin(w, req, free, seen));
            && w in t.hooks && (t.hooks[w] == Finished(req, AdmittedFree) || t.hooks[w] == Reading(req, 0, false))
            && (t.hooks[w] == Finished(req, AdmittedFree) <==>
                  || free || s.versions[seen].desiredAvailable == 0
                  || req.pod in s.versions[seen].unavailable || req.pod in s.versions[seen].disrupted)
  {
  }

  /** The version does not pay for another operation. */
  ghost predicate Refuses(st: Status) {
    st.unavailableAllowed <= 0 || |st.disrupted| + |st.unavailable| > 2000
  }

  /** What a hook does with version `base`: deny if it refuses; otherwise admit a dry run, and go on to store the charge
      of any other request. */
  ghost predicate Decided(before: Hook, after: Hook, base: nat, st: Status, at: Time)
    requires before.Reading?
  {
    if Refuses(st) then after == Finished(before.req, Denied)
    else if before.req.dryRun then after == Finished(before.req, AdmittedDryRun)
    else
      && after.Updating? && after.req == before.req && after.attempt == before.attempt
      && after.base == base && after.at == at
      && Decremented(st, before.req.pod, before.req.op, at) == Ok(after.next)
  }

  /** The first attempt is decided on the newer of the two cached versions, a later one on the stored object. */
  lemma ReadDecides(s: State, step: Step)
    requires Enabled(s, step) && (step.ReadCaches? || step.ReadStore?)
    ensures var t := Fire(s, step);
            && step.w in t.hooks
            && (step.ReadStore? ==> Decided(s.hooks[step.w], t.hooks[step.w], s.Current(), s.Stored(), step.at))
            && (step.ReadCaches? ==>
                  exists base :: && (base == step.local || base == step.informer)
                                 && base >= step.local && base >= step.informer && base < |s.versions|
                                 && Decided(s.hooks[step.w], t.hooks[step.w], base, s.versions[base], step.at))
  {
    if step.ReadCaches? {
      var base := if step.informer > step.local then step.informer else step.local;
      assert Decided(s.hooks[step.w], Fire(s, step).hooks[step.w], base, s.versions[base], step.at);
    }
  }

  /** A conflict is followed by another attempt on the stored object, and the fourth one by a denial. */
  lemma ConflictRetries(s: State, w: HookId)
    requires Enabled(s, TryUpdate(w)) && s.hooks[w].base != s.Current()
    ensures var h, t := s.hooks[w], Fire(s, TryUpdate(w));
            && t.versions == s.versions && w in t.hooks
            && t.hooks[w] == if h.attempt < 3 then Reading(h.req, h.attempt + 1, true) else Finished(h.req, Denied)
  {
  }

  /** A call that fails otherwise, or whose reply is lost, denies the operation; a charge that got through admits it. */
  lemma FailedCallDenies(s: State, step: Step)
    requires Enabled(s, step)
    requires step.ReadFails? || step.UpdateFails? || step.ReplyLost? || step.Reply?
    ensures var t := Fire(s, step);
            && t == s.(hooks := t.hooks) && step.w in t.hooks
            && t.hooks[step.w] == Finished(s.hooks[step.w].req,
                                           if step.Reply? then Admitted(s.hooks[step.w].epoch, s.hooks[step.w].index)
                                           else Denied)
  {
  }

  /** A budget that allows it admits: left alone, a hook that reads the stored version gets its operation paid for and
      admitted, from every state. */
  lemma AdmittedIfAllowed(s: State, w: HookId, at: Time) returns (steps: seq<Step>, t: State)
    requires s.WellFormed() && w in s.hooks && s.hooks[w].Reading? && !s.hooks[w].req.dryRun && !Refuses(s.Stored())
    ensures Runs(s, steps, t) && forall i :: 0 <= i < |steps| ==> steps[i].ReadCaches? || steps[i].ReadStore?
                                                                  || steps[i].TryUpdate? || steps[i].Reply?
    ensures w in t.hooks && t.hooks[w].Finished? && t.hooks[w].verdict.Admitted?
  {
    var read := if s.hooks[w].refresh then ReadStore(w, at) else ReadCaches(w, s.Current(), s.Current(), at);
    var s1 := Fire(s, read);
    var s2 := Fire(s1, TryUpdate(w));
    t := Fire(s2, Reply(w));
    steps := [read, TryUpdate(w), Reply(w)];
    RunThrough(Fire, [s, s1, s2, t], steps, 0);
    assert steps[0..] == steps;
  }

  // ---------------------------------------------------------------------------------------------------------
  // The invariant, one conjunct per concern.

  /** A finished computation is what check-and-decrement makes of the version it was based on. */
  ghost predicate HookSound(s: State, w: HookId)
    requires s.WellFormed() && w in s.hooks
  {
    match s.hooks[w]
    case Reading(_, _, _) => true
    case Updating(req, _, base, at, next) =>
      base < |s.versions| && Decremented(s.versions[base], req.pod, req.op, at) == Ok(next)
    case Awaiting(req, e, i) => PaidBy(s, w, req, e, i)
    case Finished(req, v) => v.Admitted? ==> PaidBy(s, w, req, v.epoch, v.index)
  }

  /** The charge with this epoch and index was stored by w for exactly this request. */
  ghost predicate PaidBy(s: State, w: HookId, req: Request, e: nat, i: nat) {
    && e < |s.epochs| && i < |s.epochs[e].commits|
    && s.epochs[e].commits[i].payer == w
    && s.epochs[e].commits[i].charge.pod == req.pod
    && s.epochs[e].commits[i].charge.op == req.op
  }

  /** The whole history of an epoch is a legal sequential history of the budget, starting from a status that
      allows no more than the counted pods can spare. */
  ghost predicate EpochSound(epoch: Epoch) {
    && Replay(epoch.published, Charges(epoch.commits)).Some?
    && 0 <= epoch.published.unavailableAllowed
    && epoch.published.unavailableAllowed <= Max(0, |epoch.available| - epoch.published.desiredAvailable)
    && epoch.published.Records() <= MAX_UNAVAILABLE_POD_SIZE + 1
    && (forall p :: p in epoch.available ==> !epoch.published.Recorded(p))
  }

  ghost predicate StatusBounded(st: Status) {
    0 <= st.unavailableAllowed && st.Records() <= MAX_UNAVAILABLE_POD_SIZE + 1
  }

  ghost predicate SyncSound(s: State)
    requires s.WellFormed()
  {
    s.sync.Writing? ==>
      && s.sync.base < |s.versions|
      && StatusBounded(s.sync.next)
      && EpochSound(Epoch(s.sync.next, s.sync.available, []))
  }

  ghost predicate VersionsSound(s: State) { forall k :: 0 <= k < |s.versions| ==> StatusBounded(s.versions[k]) }

  /** Every epoch is sound, and replaying the running one leads to the stored status. */
  ghost predicate EpochsSound(s: State)
    requires s.WellFormed()
  {
    && (forall e :: 0 <= e < |s.epochs| ==> EpochSound(s.epochs[e]))
    && Replay(Last(s).published, Charges(Last(s).commits)) == Some(s.Stored())
  }

  ghost predicate HooksSound(s: State)
    requires s.WellFormed()
  {
    forall w :: w in s.hooks ==> HookSound(s, w)
  }

  ghost predicate Inv(s: State) {
    s.WellFormed() && VersionsSound(s) && EpochsSound(s) && HooksSound(s) && SyncSound(s)
  }

  ghost function Last(s: State): Epoch
    requires s.WellFormed()
  {
    s.epochs[|s.epochs| - 1]
  }

  lemma InitialInv()
    ensures Inv(INITIAL)
  {
  }

  lemma ReplayExtends(st: Status, commits: seq<Commit>, c: Commit, after: Status)
    requires Replay(st, Charges(commits)).Some?
    requires Decremented(Replay(st, Charges(commits)).value, c.charge.pod, c.charge.op, c.charge.at) == Ok(after)
    ensures Replay(st, Charges(commits + [c])) == Some(after)
  {
    var longer := Charges(commits + [c]);
    assert longer[..|commits|] == Charges(commits);
  }

  /** The heart of the protocol: a compare-and-swap can only succeed on the version the check was made on, so a
      stored update is one atomic check-and-decrement of the stored status. */
  lemma CommitIsAtomic(s: State, w: HookId)
    requires Inv(s) && w in s.hooks && s.hooks[w].Updating? && s.hooks[w].base == s.Current()
    ensures var h := s.hooks[w];
            Decremented(s.Stored(), h.req.pod, h.req.op, h.at) == Ok(Committed(s, w).Stored())
  {
  }

  lemma CommitKeepsEpochs(s: State, w: HookId)
    requires Inv(s) && w in s.hooks && s.hooks[w].Updating? && s.hooks[w].base == s.Current()
    ensures EpochsSound(Committed(s, w))
  {
    var h := s.hooks[w];
    CommitIsAtomic(s, w);
    ReplayExtends(Last(s).published, Last(s).commits, Commit(w, Charge(h.req.pod, h.req.op, h.at)), h.next);
  }

  /** History only grows, so what a hook that does not move relies on stays. */
  lemma HookStaysSound(s: State, t: State, v: HookId)
    requires s.WellFormed() && t.WellFormed() && v in s.hooks && HookSound(s, v)
    requires v in t.hooks && t.hooks[v] == s.hooks[v]
    requires s.versions <= t.versions && |s.epochs| <= |t.epochs|
    requires forall e :: 0 <= e < |s.epochs| ==> s.epochs[e].commits <= t.epochs[e].commits
    ensures HookSound(t, v)
  {
  }

  lemma CommitKeepsHooks(s: State, w: HookId)
    requires Inv(s) && w in s.hooks && s.hooks[w].Updating? && s.hooks[w].base == s.Current()
    ensures HooksSound(Committed(s, w))
  {
    var t := Committed(s, w);
    forall v | v in t.hooks
      ensures HookSound(t, v)
    {
      if v != w {
        HookStaysSound(s, t, v);
      }
    }
  }

  lemma CommitKeepsInv(s: State, w: HookId)
    requires Inv(s) && w in s.hooks && s.hooks[w].Updating? && s.hooks[w].base == s.Current()
    ensures Inv(Committed(s, w))
  {
    var h := s.hooks[w];
    CommitIsAtomic(s, w);
    DecrementedAccounts(s.Stored(), h.req.pod, h.req.op, h.at);
    CommitKeepsEpochs(s, w);
    CommitKeepsHooks(s, w);
  }

  lemma SyncWriteKeepsInv(s: State)
    requires Inv(s) && s.sync.Writing?
    ensures Inv(Fire(s, SyncWrite))
  {
    var t := Fire(s, SyncWrite);
    forall v | v in t.hooks
      ensures HookSound(t, v)
    {
      HookStaysSound(s, t, v);
    }
    assert Charges([]) == [];
  }

  lemma SyncReadKeepsInv(s: State, base: nat, pods: seq<PodInfo>, desired: nat, now: Time)
    requires Inv(s) && Enabled(s, SyncRead(base, pods, desired, now))
    ensures Inv(Fire(s, SyncRead(base, pods, desired, now)))
  {
    RecalculatedShrinksRecords(s.versions[base], pods, desired, now);
    assert Charges([]) == [];
    assert StatusBounded(s.versions[base]);
    var t := Fire(s, SyncRead(base, pods, desired, now));
    forall v | v in t.hooks
      ensures HookSound(t, v)
    {
      HookStaysSound(s, t, v);
    }
  }

  lemma TouchKeepsInv(s: State)
    requires Inv(s)
    ensures Inv(Fire(s, Touch))
  {
  }

  /** A step that only moves one hook. */
  lemma HookMoveKeepsInv(s: State, w: HookId, h: Hook)
    requires Inv(s)
    requires HookSound(s.(hooks := s.hooks[w := h]), w)
    ensures Inv(s.(hooks := s.hooks[w := h]))
  {
  }

  /** The steps of a hook that store nothing. */
  predicate MovesHookOnly(s: State, step: Step)
    requires Enabled(s, step)
  {
    match step
    case TryUpdate(w) => s.hooks[w].base != s.Current()
    case SyncRead(_, _, _, _) => false
    case SyncWrite => false
    case Touch => false
    case _ => true
  }

  lemma HookStepSound(s: State, step: Step)
    requires Inv(s) && Enabled(s, step) && MovesHookOnly(s, step)
    ensures step.w in Fire(s, step).hooks
    ensures Fire(s, step) == s.(hooks := s.hooks[step.w := Fire(s, step).hooks[step.w]])
    ensures HookSound(Fire(s, step), step.w)
  {
    assert step.w in s.hooks ==> HookSound(s, step.w);
  }

  lemma StepKeepsInv(s: State, step: Step)
    requires Inv(s) && Enabled(s, step)
    ensures Inv(Fire(s, step))
  {
    if MovesHookOnly(s, step) {
      HookStepSound(s, step);
      HookMoveKeepsInv(s, step.w, Fire(s, step).hooks[step.w]);
    } else if step.TryUpdate? {
      CommitKeepsInv(s, step.w);
    } else if step.SyncRead? {
      SyncReadKeepsInv(s, step.base, step.pods, step.desired, step.now);
    } else if step.SyncWrite? {
      SyncWriteKeepsInv(s);
    } else {
      TouchKeepsInv(s);
    }
  }

  lemma {:induction false} RunKeepsInv(s: State, steps: seq<Step>, t: State)
    requires Inv(s) && Runs(s, steps, t)
    ensures Inv(t)
    decreases |steps|
  {
    if steps != [] {
      StepKeepsInv(s, steps[0]);
      RunKeepsInv(Fire(s, steps[0]), steps[1..], t);
    }
  }

  // ---------------------------------------------------------------------------------------------------------
  // Refinement: the budget behaves like one atomic bounded counter.

  /** The atomic specification: a status somebody may replace, and from which a unit is taken in one go. */
  datatype Atomic = Replace(st: Status) | Take(charge: Charge) | Stutter

  function AtomicStep(st: Status, a: Atomic): Option<Status> {
    match a
    case Replace(st') => Some(st')
    case Take(c) => (match Decremented(st, c.pod, c.op, c.at) case Ok(r) => Some(r) case Err(_) => None)
    case Stutter => Some(st)
  }

  /** What an observer of the atomic counter sees of a step. */
  function Observed(s: State, step: Step): Atomic
    requires Enabled(s, step)
  {
    match step
    case TryUpdate(w) =>
      var h := s.hooks[w];
      if h.base == s.Current() then Take(Charge(h.req.pod, h.req.op, h.at)) else Stutter
    case SyncWrite => if s.sync.base == s.Current() then Replace(s.sync.next) else Stutter
    case _ => Stutter
  }

  /** A step that is no attempt to store a charge replaces the stored status or leaves it alone. */
  lemma OtherStepRefines(s: State, step: Step)
    requires Enabled(s, step) && !step.TryUpdate?
    ensures Fire(s, step).WellFormed()
    ensures AtomicStep(s.Stored(), Observed(s, step)) == Some(Fire(s, step).Stored())
  {
  }

  /** Every step of the concurrent protocol is one step of the atomic counter on the stored status. */
  lemma StepRefinesAtomicCounter(s: State, step: Step)
    requires Inv(s) && Enabled(s, step)
    ensures Fire(s, step).WellFormed()
    ensures AtomicStep(s.Stored(), Observed(s, step)) == Some(Fire(s, step).Stored())
  {
    if !step.TryUpdate? {
      OtherStepRefines(s, step);
    } else if s.hooks[step.w].base == s.Current() {
      CommitIsAtomic(s, step.w);
    }
  }

  // ---------------------------------------------------------------------------------------------------------
  // The promises, for every run from a fresh budget.

  /** The hooks whose (real) operation was let through at the expense of epoch e. */
  ghost function AdmittedIn(s: State, e: nat): set<HookId> {
    set w | w in s.hooks && s.hooks[w].Finished? && s.hooks[w].verdict.Admitted? && s.hooks[w].verdict.epoch == e
  }

  ghost function Payers(commits: seq<Commit>): set<HookId> {
    if commits == [] then {}
    else Payers(commits[..|commits| - 1]) + {commits[|commits| - 1].payer}
  }

  lemma {:induction false} PayersSize(commits: seq<Commit>)
    ensures |Payers(commits)| <= |commits|
    ensures forall i :: 0 <= i < |commits| ==> commits[i].payer in Payers(commits)
  {
    if commits != [] {
      PayersSize(commits[..|commits| - 1]);
    }
  }

  /** In every epoch of every run: admissions are covered by stored charges, the stored charges by what the
      controller published, and the published number by the pods it counted. The stored status is always the
      published one with the charges applied one at a time. */
  lemma AdmissionsWithinBudget(steps: seq<Step>, s: State, e: nat)
    requires Runs(INITIAL, steps, s)
    requires e < |s.epochs|
    ensures |AdmittedIn(s, e)| <= |s.epochs[e].commits| <= s.epochs[e].published.unavailableAllowed
    ensures Replay(s.epochs[e].published, Charges(s.epochs[e].commits)).Some?
    ensures e == |s.epochs| - 1 ==>
              s.WellFormed() && Replay(s.epochs[e].published, Charges(s.epochs[e].commits)) == Some(s.Stored())
  {
    InitialInv();
    RunKeepsInv(INITIAL, steps, s);
    var epoch := s.epochs[e];
    assert EpochSound(epoch);
    ReplayPays(epoch.published, Charges(epoch.commits));
    PayersSize(epoch.commits);
    forall w | w in AdmittedIn(s, e)
      ensures w in Payers(epoch.commits)
    {
      assert HookSound(s, w);
    }
    SubsetSize(AdmittedIn(s, e), Payers(epoch.commits));
  }

  /** The stored counter is never negative and the two maps never hold more than one entry past the limit. */
  lemma StatusAlwaysBounded(steps: seq<Step>, s: State, k: nat)
    requires Runs(INITIAL, steps, s) && k < |s.versions|
    ensures 0 <= s.versions[k].unavailableAllowed
    ensures s.versions[k].Records() <= MAX_UNAVAILABLE_POD_SIZE + 1
  {
    InitialInv();
    RunKeepsInv(INITIAL, steps, s);
    assert StatusBounded(s.versions[k]);
  }

  /** Every charge of the running epoch, and so every operation admitted at its expense, is on record in the
      map of its operation, next to everything the controller had left there. */
  lemma ChargesOnRecord(steps: seq<Step>, s: State, i: nat)
    requires Runs(INITIAL, steps, s) && s.WellFormed() && i < |Last(s).commits|
    ensures var c := Last(s).commits[i].charge;
            c.pod in (if c.op.Update? then s.Stored().unavailable else s.Stored().disrupted)
    ensures Last(s).published.unavailable.Keys <= s.Stored().unavailable.Keys
    ensures Last(s).published.disrupted.Keys <= s.Stored().disrupted.Keys
  {
    InitialInv();
    RunKeepsInv(INITIAL, steps, s);
    ReplayRecords(Last(s).published, Charges(Last(s).commits));
    ChargedPods(Charges(Last(s).commits), i);
  }

  /** What the budget is for: of the pods the controller counted as available, at least the desired number is
      left after removing every pod whose disruption was paid for since, whatever the interleaving. */
  lemma DesiredPodsLeft(steps: seq<Step>, s: State, e: nat)
    requires Runs(INITIAL, steps, s)
    requires e < |s.epochs| && s.epochs[e].commits != []
    ensures var epoch := s.epochs[e];
            var gone := PodsUpdated(Charges(epoch.commits)) + PodsDisrupted(Charges(epoch.commits));
            |epoch.available - gone| >= epoch.published.desiredAvailable
  {
    InitialInv();
    RunKeepsInv(INITIAL, steps, s);
    var epoch := s.epochs[e];
    assert EpochSound(epoch);
    var charges := Charges(epoch.commits);
    var gone := PodsUpdated(charges) + PodsDisrupted(charges);
    ReplayPays(epoch.published, charges);
    ChargedPodsSize(charges);
    assert epoch.available == (epoch.available - gone) + (epoch.available * gone);
    SubsetSize(epoch.available * gone, gone);
  }
}
