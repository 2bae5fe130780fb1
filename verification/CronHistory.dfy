/** The runs an AdvancedCronJob starts over its life. Nothing records what has been started except the surviving child
    jobs: the last scheduled time is recomputed from them, and the clean-up of the history deletes some of them. */
module CronHistory {
  import opened Prelude
  import opened Sorting
  import opened CronSchedule

  datatype Phase = Active | Failed | Complete

  datatype Job = Job(phase: Phase, start: Option<Time>)

  /** Child jobs by scheduled time. The name of a child is the name of its parent and that time. */
  type Children = map<Time, Job>

  datatype Policy = Allow | Forbid | Replace

  datatype Config = Config(next: Time -> Time, creation: Time, deadline: Option<int>, policy: Policy,
                           failedLimit: Option<nat>, successLimit: Option<nat>)

  ghost function OfPhase(view: Children, phase: Phase): set<Time> {
    set t | t in view && view[t].phase == phase
  }

  /** Order of start times; a job that has not started comes first. */
  predicate StartLess(a: Option<Time>, b: Option<Time>) {
    if a.None? then b.Some? else b.Some? && a.value < b.value
  }

  function StartOf(view: Children, t: Time): Option<Time> {
    if t in view then view[t].start else None
  }

  function StartOrder(view: Children): (Time, Time) -> bool {
    (a, b) => !StartLess(StartOf(view, b), StartOf(view, a))
  }

  lemma StartOrderTotal(view: Children)
    ensures TotalPreorder(StartOrder(view))
  {
  }

  /** `order` is how the clean-up may have arranged the jobs of a phase: a list of all of them, by start if a limit is
      set. */
  ghost predicate IsOrder(view: Children, phase: Phase, limit: Option<nat>, order: seq<Time>) {
    && Distinct(order) && Elements(order) == OfPhase(view, phase)
    && (limit.Some? ==> SortedBy(order, StartOrder(view)))
  }

  /** The jobs the clean-up deletes: all but the last `limit`. */
  function Trimmed(order: seq<Time>, limit: Option<nat>): set<Time> {
    if limit.None? then {} else Elements(order[..Max(0, |order| - limit.value)])
  }

  ghost predicate IsLast(view: Children, last: Option<Time>) {
    && (last.None? <==> view.Keys == {})
    && (last.Some? ==> IsGreatest(last.value, view.Keys))
  }

  /** m is the run a reconcile that saw `view` at time `now` has to start. */
  ghost predicate IsDue(cfg: Config, last: Option<Time>, now: Time, m: Time) {
    var missed := Missed(cfg.next, Earliest(last, cfg.creation, cfg.deadline, now), now);
    |missed| <= MAX_MISSED_STARTS && IsGreatest(m, missed) && !TooLate(m, cfg.deadline, now)
  }

  // ---------------------------------------------------------------- the controller's own computations

  predicate Is(view: Children, t: Time, phase: Phase) { t in view && view[t].phase == phase }

  /** The listed children of a phase, in order. */
  function InPhase(view: Children, children: seq<Time>, phase: Phase): seq<Time> {
    if children == [] then []
    else
      var n := |children| - 1;
      InPhase(view, children[..n], phase) + if Is(view, children[n], phase) then [children[n]] else []
  }

  function MostRecent(children: seq<Time>): Option<Time> {
    if children == [] then None
    else
      var t, before := children[|children| - 1], MostRecent(children[..|children| - 1]);
      if before.None? || before.value < t then Some(t) else before
  }

  method ListChildren(view: Children, children: seq<Time>)
    returns (active: seq<Time>, failed: seq<Time>, successful: seq<Time>, last: Option<Time>)
    requires forall t :: t in children ==> t in view
    ensures active == InPhase(view, children, Active)
    ensures failed == InPhase(view, children, Failed)
    ensures successful == InPhase(view, children, Complete)
    ensures last == MostRecent(children)
  {
    active, failed, successful, last := [], [], [], None;
    for i := 0 to |children|
      invariant active == InPhase(view, children[..i], Active)
      invariant failed == InPhase(view, children[..i], Failed)
      invariant successful == InPhase(view, children[..i], Complete)
      invariant last == MostRecent(children[..i])
    {
      var t := children[i];
      assert children[..i + 1][..i] == children[..i];
      match view[t].phase {
        case Active => active := active + [t];
        case Failed => failed := failed + [t];
        case Complete => successful := successful + [t];
      }
      if last.None? {
        last := Some(t);
      } else if last.value < t {
        last := Some(t);
      }
    }
    assert children[..|children|] == children;
  }

  /** What the lists and the last schedule time are. */
  method ClassifyChildren(view: Children, children: seq<Time>)
    returns (active: seq<Time>, failed: seq<Time>, successful: seq<Time>, last: Option<Time>)
    requires Distinct(children) && Elements(children) == view.Keys
    ensures Distinct(active) && Elements(active) == OfPhase(view, Active)
    ensures Distinct(failed) && Elements(failed) == OfPhase(view, Failed)
    ensures Distinct(successful) && Elements(successful) == OfPhase(view, Complete)
    ensures IsLast(view, last)
  {
    assert forall t :: t in children ==> t in Elements(children);
    active, failed, successful, last := ListChildren(view, children);
    AllInPhase(view, children, Active);
    AllInPhase(view, children, Failed);
    AllInPhase(view, children, Complete);
    LastOfAll(view, children);
  }

  lemma AllInPhase(view: Children, children: seq<Time>, phase: Phase)
    requires Distinct(children) && Elements(children) == view.Keys
    ensures Distinct(InPhase(view, children, phase)) && Elements(InPhase(view, children, phase)) == OfPhase(view, phase)
  {
    InPhaseMembers(view, children, phase);
    assert forall t :: t in children <==> t in view.Keys;
  }

  lemma LastOfAll(view: Children, children: seq<Time>)
    requires Elements(children) == view.Keys
    ensures IsLast(view, MostRecent(children))
  {
    MostRecentIsGreatest(children);
    assert forall t :: t in children <==> t in view.Keys;
  }

  lemma {:induction false} InPhaseMembers(view: Children, children: seq<Time>, phase: Phase)
    requires Distinct(children)
    ensures Distinct(InPhase(view, children, phase))
    ensures forall t :: t in InPhase(view, children, phase) <==> t in children && Is(view, t, phase)
  {
    if children != [] {
      var n := |children| - 1;
      InPhaseMembers(view, children[..n], phase);
      assert children == children[..n] + [children[n]];
    }
  }

  lemma {:induction false} MostRecentIsGreatest(children: seq<Time>)
    ensures MostRecent(children).None? <==> children == []
    ensures children != [] ==>
              MostRecent(children).value in children && forall t :: t in children ==> t <= MostRecent(children).value
  {
    if children != [] {
      var n := |children| - 1;
      MostRecentIsGreatest(children[..n]);
      assert children == children[..n] + [children[n]];
    }
  }

  lemma {:induction false} PermutationDistinct(xs: seq<Time>, ys: seq<Time>)
    requires multiset(xs) == multiset(ys) && Distinct(xs)
    ensures Distinct(ys) && Elements(ys) == Elements(xs)
  {
    forall x
      ensures x in ys <==> x in xs
    {
      PermutationMembers(xs, ys, x);
    }
    forall x | x in ys
      ensures multiset(ys)[x] <= 1
    {
      AtMostOnce(xs, x);
    }
    SingleMeansDistinct(ys);
  }

  lemma {:induction false} AtMostOnce(xs: seq<Time>, x: Time)
    requires Distinct(xs)
    ensures multiset(xs)[x] <= 1
  {
    if xs != [] {
      var n := |xs| - 1;
      AtMostOnce(xs[..n], x);
      assert xs == xs[..n] + [xs[n]];
      if x == xs[n] {
        assert x !in xs[..n];
        assert multiset(xs[..n])[x] == 0;
      }
    }
  }

  /** Not started at all, or started no later. */
  predicate StartsNoLater(a: Option<Time>, b: Option<Time>) { a.None? || (b.Some? && a.value <= b.value) }

  /** What the clean-up deletes starts no later than what it keeps. */
  lemma TrimmedStartFirst(view: Children, phase: Phase, limit: Option<nat>, order: seq<Time>, t: Time, u: Time)
    requires IsOrder(view, phase, limit, order) && t in Trimmed(order, limit)
    requires u in order && u !in Trimmed(order, limit)
    ensures t in view && u in view && StartsNoLater(view[t].start, view[u].start)
  {
    var k := Max(0, |order| - limit.value);
    var i :| 0 <= i < k && order[i] == t;
    var j :| 0 <= j < |order| && order[j] == u;
    assert forall x :: 0 <= x < k ==> order[x] in order[..k] && order[x] in Trimmed(order, limit);
    assert t in Elements(order) && u in Elements(order);
    assert StartOrder(view)(order[i], order[j]);
  }

  lemma DeletedStartFirst(view: Children, jobs: seq<Time>, phase: Phase, limit: Option<nat>, order: seq<Time>,
                          deleted: seq<Time>)
    requires IsOrder(view, phase, limit, order) && Elements(jobs) == Elements(order)
    requires Elements(deleted) == Trimmed(order, limit)
    ensures forall t, u :: t in deleted && u in jobs && u !in deleted ==>
              t in view && u in view && StartsNoLater(view[t].start, view[u].start)
  {
    forall t, u | t in deleted && u in jobs && u !in deleted
      ensures t in view && u in view && StartsNoLater(view[t].start, view[u].start)
    {
      assert t in Elements(deleted) && u !in Elements(deleted) && u in Elements(jobs) && u in Elements(order);
      TrimmedStartFirst(view, phase, limit, order, t, u);
    }
  }

  lemma TrimmedInPhase(view: Children, phase: Phase, limit: Option<nat>, order: seq<Time>, t: Time)
    requires IsOrder(view, phase, limit, order) && t in Trimmed(order, limit)
    ensures t in view && view[t].phase == phase
  {
    assert t in Elements(order);
  }

  /** All but the last `limit` jobs are deleted, and nothing without a limit. */
  lemma TrimmedSize(order: seq<Time>, limit: Option<nat>)
    requires Distinct(order)
    ensures |Trimmed(order, limit)| == if limit.Some? && |order| > limit.value then |order| - limit.value else 0
  {
    if limit.Some? {
      DistinctSize(order[..Max(0, |order| - limit.value)]);
    }
  }

  /** Sorts the finished jobs of a phase by start and deletes from the front until `limit` are left. */
  method CleanUp(view: Children, jobs: seq<Time>, ghost phase: Phase, limit: Option<nat>)
    returns (order: seq<Time>, deleted: seq<Time>)
    requires Distinct(jobs) && Elements(jobs) == OfPhase(view, phase)
    ensures IsOrder(view, phase, limit, order)
    ensures Elements(deleted) == Trimmed(order, limit)
    ensures |deleted| == if limit.Some? && |jobs| > limit.value then |jobs| - limit.value else 0
    ensures forall t, u :: t in deleted && u in jobs && u !in deleted ==>
              t in view && u in view && StartsNoLater(view[t].start, view[u].start)
  {
    order, deleted := jobs, [];
    if limit.Some? {
      StartOrderTotal(view);
      order := SortBy(jobs, StartOrder(view));
      PermutationDistinct(jobs, order);
      var i := 0;
      while i < |order|
        invariant 0 <= i <= |order|
        invariant i <= Max(0, |order| - limit.value)
        invariant deleted == order[..i]
      {
        if i >= |order| - limit.value {
          break;
        }
        deleted := deleted + [order[i]];
        i := i + 1;
      }
      DeletedStartFirst(view, jobs, phase, limit, order, deleted);
    }
  }

  // ---------------------------------------------------------------- the life of an AdvancedCronJob

  /** The child jobs over time (reads may be served from any of these versions), the clock, and the scheduled times of
      the runs started, in the order in which they were started. */
  datatype State = State(stores: seq<Children>, clock: Time, started: seq<Time>)

  datatype Step =
    | Tick(to: Time)
    | Progress(t: Time, job: Job)
    | Reconcile(view: nat, failedOrder: seq<Time>, successOrder: seq<Time>, removed: set<Time>,
                last: Option<Time>, due: Option<Time>, creates: bool)

  function Initial(cfg: Config): State { State([map[]], cfg.creation, []) }

  ghost predicate Sound(s: State) { |s.stores| > 0 }

  function Now(s: State): Children
    requires |s.stores| > 0
  {
    s.stores[|s.stores| - 1]
  }

  /** Among the finished jobs of a phase the later run started later. */
  ghost predicate StartsInOrder(view: Children) {
    forall a, b :: a in view && b in view && a < b && view[a].phase == view[b].phase && !view[a].phase.Active?
                   ==> StartLess(view[a].start, view[b].start)
  }

  ghost function Replaceable(cfg: Config, view: Children): set<Time> {
    if cfg.policy == Replace then OfPhase(view, Active) else {}
  }

  ghost predicate Proceeds(cfg: Config, view: Children, due: Option<Time>) {
    due.Some? && (cfg.policy == Forbid ==> OfPhase(view, Active) == {})
  }

  ghost predicate ReconcileEnabled(cfg: Config, s: State, step: Step)
    requires Sound(s) && step.Reconcile?
  {
    && step.view < |s.stores|
    && var view := s.stores[step.view];
    && IsOrder(view, Failed, cfg.failedLimit, step.failedOrder)
    && IsOrder(view, Complete, cfg.successLimit, step.successOrder)
    && IsLast(view, step.last)
    && (step.due.Some? ==> IsDue(cfg, step.last, s.clock, step.due.value))
    && step.removed <= Trimmed(step.failedOrder, cfg.failedLimit) + Trimmed(step.successOrder, cfg.successLimit)
                       + (if Proceeds(cfg, view, step.due) then Replaceable(cfg, view) else {})
    && (step.creates ==> && Proceeds(cfg, view, step.due)
                         && Replaceable(cfg, view) * Now(s).Keys <= step.removed
                         && step.due.value !in Now(s).Keys - step.removed)
  }

  ghost predicate Enabled(cfg: Config, s: State, step: Step)
    requires Sound(s)
  {
    match step
    case Tick(to) => to >= s.clock
    case Progress(t, job) => t in Now(s) && StartsInOrder(Now(s)[t := job])
    case Reconcile(_, _, _, _, _, _, _) => ReconcileEnabled(cfg, s, step)
  }

  ghost function Fire(cfg: Config, s: State, step: Step): (r: State)
    requires Sound(s) && Enabled(cfg, s, step)
    ensures Sound(r)
  {
    match step
    case Tick(to) => s.(clock := to)
    case Progress(t, job) => s.(stores := s.stores + [Now(s)[t := job]])
    case Reconcile(_, _, _, removed, _, due, creates) =>
      var left := Now(s) - removed;
      if creates then
        s.(stores := s.stores + [left[due.value := Job(Active, None)]], started := s.started + [due.value])
      else
        s.(stores := s.stores + [left])
  }

  ghost predicate Runs(cfg: Config, s: State, steps: seq<Step>, t: State)
    requires Sound(s)
    decreases |steps|
  {
    if steps == [] then s == t
    else Enabled(cfg, s, steps[0]) && Runs(cfg, Fire(cfg, s, steps[0]), steps[1..], t)
  }

  ghost predicate Increasing(xs: seq<Time>) {
    forall i, j :: 0 <= i < j < |xs| ==> xs[i] < xs[j]
  }

  /** No run is ever started twice, nor after a later one. */
  ghost predicate NeverRepeats(cfg: Config) {
    forall steps, t :: Runs(cfg, Initial(cfg), steps, t) ==> Increasing(t.started)
  }

  ghost predicate KeepsHistory(cfg: Config) { cfg.failedLimit != Some(0) && cfg.successLimit != Some(0) }

  // ---------------------------------------------------------------- what every step keeps

  ghost predicate StartedSound(cfg: Config, s: State) {
    && Increasing(s.started)
    && (forall i :: 0 <= i < |s.started| ==> cfg.creation < s.started[i] <= s.clock)
    && (forall i :: 0 <= i < |s.started| ==> Activation(cfg.next, s.started[i]))
  }

  ghost predicate StoresSound(s: State) {
    forall k :: 0 <= k < |s.stores| ==> StartsInOrder(s.stores[k]) && forall t :: t in s.stores[k] ==> t in s.started
  }

  /** The last run started is still on record, or a later one is due. */
  ghost predicate LastRemembered(cfg: Config, s: State)
    requires Sound(s)
  {
    s.started != [] ==>
      var l := s.started[|s.started| - 1];
      l in Now(s) || Missed(cfg.next, l, s.clock) != {}
  }

  ghost predicate Inv(cfg: Config, s: State) {
    Sound(s) && StartedSound(cfg, s) && StoresSound(s) && LastRemembered(cfg, s)
  }

  /** If the limit is not zero, the clean-up deletes a run only if there is a later one. */
  lemma CleanUpSparesLatest(view: Children, phase: Phase, limit: Option<nat>, order: seq<Time>)
    requires IsOrder(view, phase, limit, order) && StartsInOrder(view) && limit != Some(0) && !phase.Active?
    ensures forall t :: t in Trimmed(order, limit) ==> t in view && exists later :: later in view && later > t
  {
    forall t | t in Trimmed(order, limit)
      ensures t in view && exists later :: later in view && later > t
    {
      var i :| 0 <= i < |order| - limit.value && order[i] == t;
      var later := order[i + 1];
      assert later in Elements(order) && t in Elements(order) && later != t;
      assert StartOrder(view)(order[i], order[i + 1]);
      assert later in view && later > t;
    }
  }

  lemma LatestStarted(s: State, k: nat, t: Time)
    requires StoresSound(s) && Increasing(s.started) && k < |s.stores| && t in s.stores[k]
    ensures s.started != [] && t <= s.started[|s.started| - 1]
  {
  }

  /** What is due is not before the last run started; it is after it if the view shows that run. */
  lemma DueNotBeforeLast(cfg: Config, s: State, k: nat, last: Option<Time>, m: Time)
    requires Schedule(cfg.next) && Inv(cfg, s) && k < |s.stores| && s.started != []
    requires IsLast(s.stores[k], last) && IsDue(cfg, last, s.clock, m)
    ensures var l := s.started[|s.started| - 1];
            && m >= l && (l in s.stores[k] ==> m > l)
            && (m == l ==> Missed(cfg.next, l, s.clock) == {})
  {
    var l := s.started[|s.started| - 1];
    var e := Earliest(last, cfg.creation, cfg.deadline, s.clock);
    var missed := Missed(cfg.next, e, s.clock);
    assert m in missed;
    if l > e {
      assert l in missed;
    }
    if l in s.stores[k] {
      assert l in s.stores[k].Keys;
      assert l <= last.value <= e;
    }
    if m == l {
      assert forall u :: u in Missed(cfg.next, l, s.clock) ==> u in missed && u > m;
    }
  }

  /** A reconcile removes the last run started only to start a later one. */
  lemma RemovedLast(cfg: Config, s: State, step: Step)
    requires Schedule(cfg.next) && KeepsHistory(cfg) && Inv(cfg, s) && s.started != []
    requires step.Reconcile? && Enabled(cfg, s, step)
    requires s.started[|s.started| - 1] in step.removed
    ensures s.started[|s.started| - 1] in s.stores[step.view] && step.due.Some?
    ensures step.due.value in Missed(cfg.next, s.started[|s.started| - 1], s.clock)
  {
    LastNotTrimmed(cfg, s, step);
    assert s.started[|s.started| - 1] in Replaceable(cfg, s.stores[step.view]);
    DueNotBeforeLast(cfg, s, step.view, step.last, step.due.value);
  }

  /** The clean-up does not delete the last run started. */
  lemma LastNotTrimmed(cfg: Config, s: State, step: Step)
    requires KeepsHistory(cfg) && Inv(cfg, s) && s.started != [] && step.Reconcile? && Enabled(cfg, s, step)
    ensures s.started[|s.started| - 1] !in Trimmed(step.failedOrder, cfg.failedLimit)
    ensures s.started[|s.started| - 1] !in Trimmed(step.successOrder, cfg.successLimit)
  {
    var view := s.stores[step.view];
    forall t | t in view
      ensures t <= s.started[|s.started| - 1]
    {
      LatestStarted(s, step.view, t);
    }
    CleanUpSparesLatest(view, Failed, cfg.failedLimit, step.failedOrder);
    CleanUpSparesLatest(view, Complete, cfg.successLimit, step.successOrder);
  }

  lemma StartedRunIsLater(cfg: Config, s: State, step: Step)
    requires Schedule(cfg.next) && KeepsHistory(cfg) && Inv(cfg, s) && s.started != []
    requires step.Reconcile? && Enabled(cfg, s, step) && step.creates
    ensures step.due.value > s.started[|s.started| - 1]
  {
    if s.started[|s.started| - 1] in step.removed {
      RemovedLast(cfg, s, step);
    } else {
      DueNotBeforeLast(cfg, s, step.view, step.last, step.due.value);
    }
  }

  lemma IncreasingAppend(xs: seq<Time>, x: Time)
    requires Increasing(xs) && (xs != [] ==> x > xs[|xs| - 1])
    ensures Increasing(xs + [x])
  {
  }

  lemma StartedRunIsNew(cfg: Config, s: State, step: Step)
    requires Schedule(cfg.next) && KeepsHistory(cfg) && Inv(cfg, s)
    requires step.Reconcile? && Enabled(cfg, s, step) && step.creates
    ensures Increasing(s.started + [step.due.value])
  {
    if s.started != [] {
      StartedRunIsLater(cfg, s, step);
    }
    IncreasingAppend(s.started, step.due.value);
  }

  lemma ReconcileKeepsStarted(cfg: Config, s: State, step: Step)
    requires Schedule(cfg.next) && KeepsHistory(cfg) && Inv(cfg, s)
    requires step.Reconcile? && Enabled(cfg, s, step)
    ensures StartedSound(cfg, Fire(cfg, s, step))
  {
    if step.creates {
      StartedRunIsNew(cfg, s, step);
    }
  }

  lemma ReconcileKeepsStores(cfg: Config, s: State, step: Step)
    requires Inv(cfg, s) && step.Reconcile? && Enabled(cfg, s, step)
    ensures StoresSound(Fire(cfg, s, step))
  {
  }

  lemma ReconcileKeepsLast(cfg: Config, s: State, step: Step)
    requires Schedule(cfg.next) && KeepsHistory(cfg) && Inv(cfg, s)
    requires step.Reconcile? && Enabled(cfg, s, step)
    ensures LastRemembered(cfg, Fire(cfg, s, step))
  {
    if !step.creates && s.started != [] {
      KeptOrLaterDue(cfg, s, step);
    }
  }

  lemma KeptOrLaterDue(cfg: Config, s: State, step: Step)
    requires Schedule(cfg.next) && KeepsHistory(cfg) && Inv(cfg, s) && s.started != []
    requires step.Reconcile? && Enabled(cfg, s, step)
    ensures var l := s.started[|s.started| - 1]; l in Now(s) - step.removed || Missed(cfg.next, l, s.clock) != {}
  {
    if s.started[|s.started| - 1] in step.removed {
      RemovedLast(cfg, s, step);
    }
  }

  lemma TickKeepsInv(cfg: Config, s: State, to: Time)
    requires Inv(cfg, s) && to >= s.clock
    ensures Inv(cfg, s.(clock := to))
  {
  }

  lemma ProgressKeepsInv(cfg: Config, s: State, step: Step)
    requires Inv(cfg, s) && step.Progress? && Enabled(cfg, s, step)
    ensures Inv(cfg, Fire(cfg, s, step))
  {
  }

  lemma StepKeepsInv(cfg: Config, s: State, step: Step)
    requires Schedule(cfg.next) && KeepsHistory(cfg) && Inv(cfg, s) && Enabled(cfg, s, step)
    ensures Inv(cfg, Fire(cfg, s, step))
  {
    match step {
      case Tick(to) => TickKeepsInv(cfg, s, to);
      case Progress(_, _) => ProgressKeepsInv(cfg, s, step);
      case Reconcile(_, _, _, _, _, _, _) =>
        ReconcileKeepsStarted(cfg, s, step);
        ReconcileKeepsStores(cfg, s, step);
        ReconcileKeepsLast(cfg, s, step);
    }
  }

  lemma {:induction false} RunKeepsInv(cfg: Config, s: State, steps: seq<Step>, t: State)
    requires Schedule(cfg.next) && KeepsHistory(cfg) && Inv(cfg, s) && Runs(cfg, s, steps, t)
    ensures Inv(cfg, t)
    decreases |steps|
  {
    if steps != [] {
      StepKeepsInv(cfg, s, steps[0]);
      RunKeepsInv(cfg, Fire(cfg, s, steps[0]), steps[1..], t);
    }
  }

  lemma KeptHistoryNeverRepeats(cfg: Config)
    requires Schedule(cfg.next) && KeepsHistory(cfg)
    ensures NeverRepeats(cfg)
  {
    forall steps, t | Runs(cfg, Initial(cfg), steps, t)
      ensures Increasing(t.started)
    {
      RunKeepsInv(cfg, Initial(cfg), steps, t);
    }
  }

  /** Every run is one of the schedule, later than the AdvancedCronJob itself, and not started before its time. */
  lemma RunsAreScheduled(cfg: Config, steps: seq<Step>, t: State, m: Time)
    requires Schedule(cfg.next) && KeepsHistory(cfg) && Runs(cfg, Initial(cfg), steps, t) && m in t.started
    ensures Activation(cfg.next, m) && cfg.creation < m <= t.clock
  {
    RunKeepsInv(cfg, Initial(cfg), steps, t);
  }

  // ---------------------------------------------------------------- a limit of zero forgets the last run

  ghost predicate CanStart(cfg: Config) { cfg.deadline.Some? ==> cfg.deadline.value >= 1 }

  lemma FirstRunDue(cfg: Config)
    requires Schedule(cfg.next) && CanStart(cfg)
    ensures var t := cfg.next(cfg.creation); t > cfg.creation && IsDue(cfg, None, t, t)
  {
    var t := cfg.next(cfg.creation);
    NextIsLeast(cfg.next, cfg.creation);
    var e := Earliest(None, cfg.creation, cfg.deadline, t);
    assert cfg.creation <= e < t;
    assert Missed(cfg.next, e, t) == {t};
  }

  lemma {:induction false} RunExtends(cfg: Config, s: State, steps: seq<Step>, t: State, step: Step)
    requires Sound(s) && Sound(t) && Runs(cfg, s, steps, t) && Enabled(cfg, t, step)
    ensures Runs(cfg, s, steps + [step], Fire(cfg, t, step))
    decreases |steps|
  {
    if steps == [] {
      assert [step][1..] == [];
      assert steps + [step] == [step];
    } else {
      RunExtends(cfg, Fire(cfg, s, steps[0]), steps[1..], t, step);
      assert (steps + [step])[1..] == steps[1..] + [step];
    }
  }

  /** A reconcile that sees no child starts the run that is due. */
  lemma StartsFromNothing(cfg: Config, s: State, k: nat, t: Time)
    requires Sound(s) && k < |s.stores| && s.stores[k] == map[] && Now(s) == map[] && IsDue(cfg, None, s.clock, t)
    ensures var step := Reconcile(k, [], [], {}, None, Some(t), true);
            && Enabled(cfg, s, step)
            && Fire(cfg, s, step) == Started(s, t)
  {
    var step := Reconcile(k, [], [], {}, None, Some(t), true);
    assert OfPhase(s.stores[k], Failed) == {} && OfPhase(s.stores[k], Complete) == {};
    assert OfPhase(s.stores[k], Active) == {};
    assert s.stores[k].Keys == {};
    assert Enabled(cfg, s, step);
    assert (Now(s) - {})[t := Job(Active, None)] == map[t := Job(Active, None)];
  }

  /** With a limit of zero the clean-up removes the only child as soon as it has finished. */
  lemma ForgetsOnlyChild(cfg: Config, s: State, t: Time, phase: Phase)
    requires Sound(s) && Now(s) == map[t := Job(phase, Some(t))]
    requires if phase == Failed then cfg.failedLimit == Some(0) else phase == Complete && cfg.successLimit == Some(0)
    ensures var step := Reconcile(|s.stores| - 1, if phase == Failed then [t] else [],
                                  if phase == Complete then [t] else [], {t}, Some(t), None, false);
            Enabled(cfg, s, step) && Fire(cfg, s, step) == s.(stores := s.stores + [map[]])
  {
    var view := Now(s);
    assert OfPhase(view, Failed) == if phase == Failed then {t} else {};
    assert OfPhase(view, Complete) == if phase == Complete then {t} else {};
    assert view.Keys == {t};
    assert [t][..1] == [t];
    assert Elements([t]) == {t};
    assert view - {t} == map[];
  }

  lemma ZeroLimitRepeats(cfg: Config) returns (steps: seq<Step>, end: State)
    requires Schedule(cfg.next) && !KeepsHistory(cfg) && CanStart(cfg)
    ensures Runs(cfg, Initial(cfg), steps, end)
    ensures end.started == [cfg.next(cfg.creation), cfg.next(cfg.creation)]
  {
    var t := cfg.next(cfg.creation);
    FirstRunDue(cfg);
    var s0 := Initial(cfg);
    RunExtends(cfg, s0, [], s0, Tick(t));
    var s1 := s0.(clock := t);
    var first := StartAgain(cfg, s0, [] + [Tick(t)], s1, t);
    var second, s4 := OnlyChildForgotten(cfg, s0, first, Started(s1, t), t);
    steps := StartAgain(cfg, s0, second, s4, t);
    end := Started(s4, t);
  }

  /** The only child finishes, and the next reconcile removes it. */
  lemma OnlyChildForgotten(cfg: Config, s: State, steps: seq<Step>, s': State, t: Time)
    returns (more: seq<Step>, end: State)
    requires Sound(s) && Sound(s') && Runs(cfg, s, steps, s') && !KeepsHistory(cfg)
    requires Now(s') == map[t := Job(Active, None)]
    ensures Sound(end) && Runs(cfg, s, more, end)
    ensures Now(end) == map[] && end.clock == s'.clock && end.started == s'.started
  {
    var phase := if cfg.failedLimit == Some(0) then Failed else Complete;
    var finishes := Progress(t, Job(phase, Some(t)));
    assert Now(s')[t := Job(phase, Some(t))] == map[t := Job(phase, Some(t))];
    RunExtends(cfg, s, steps, s', finishes);
    var done := s'.(stores := s'.stores + [map[t := Job(phase, Some(t))]]);
    ForgetsOnlyChild(cfg, done, t, phase);
    var cleanUp := Reconcile(|done.stores| - 1, if phase == Failed then [t] else [],
                             if phase == Complete then [t] else [], {t}, Some(t), None, false);
    RunExtends(cfg, s, steps + [finishes], done, cleanUp);
    more, end := steps + [finishes] + [cleanUp], done.(stores := done.stores + [map[]]);
  }

  function Started(s: State, t: Time): State {
    State(s.stores + [map[t := Job(Active, None)]], s.clock, s.started + [t])
  }

  lemma StartAgain(cfg: Config, s: State, steps: seq<Step>, s': State, t: Time) returns (more: seq<Step>)
    requires Sound(s) && Runs(cfg, s, steps, s') && Sound(s') && Now(s') == map[] && IsDue(cfg, None, s'.clock, t)
    ensures Runs(cfg, s, more, Started(s', t))
  {
    StartsFromNothing(cfg, s', |s'.stores| - 1, t);
    var step := Reconcile(|s'.stores| - 1, [], [], {}, None, Some(t), true);
    RunExtends(cfg, s, steps, s', step);
    more := steps + [step];
  }

  /** The scheduled times of the runs started strictly increase in every life of an AdvancedCronJob if and only if
      neither history limit is zero. */
  lemma NeverRepeatsIffHistoryKept(cfg: Config)
    requires Schedule(cfg.next) && CanStart(cfg)
    ensures NeverRepeats(cfg) <==> KeepsHistory(cfg)
  {
    if KeepsHistory(cfg) {
      KeptHistoryNeverRepeats(cfg);
    } else {
      var steps, end := ZeroLimitRepeats(cfg);
      assert Runs(cfg, Initial(cfg), steps, end);
      assert !Increasing(end.started) by {
        assert !(end.started[0] < end.started[1]);
      }
    }
  }

  /** A starting deadline that is not positive never lets a run start at all. */
  lemma DeadlineTooShort(cfg: Config, last: Option<Time>, now: Time, m: Time)
    requires cfg.deadline.Some? && cfg.deadline.value < 1
    ensures !IsDue(cfg, last, now, m)
  {
  }

  // ---------------------------------------------------------------- the concurrency policies

  /** A reconcile that starts a run saw nothing active if the policy is to forbid, and leaves none of the active jobs it
      saw if the policy is to replace. */
  lemma PoliciesKept(cfg: Config, s: State, step: Step)
    requires Sound(s) && step.Reconcile? && Enabled(cfg, s, step) && step.creates
    ensures var view := s.stores[step.view];
            && (cfg.policy == Forbid ==> forall t :: t in view ==> view[t].phase != Active)
            && (cfg.policy == Replace ==>
                  forall t :: t in view && view[t].phase == Active && t != step.due.value ==>
                    t !in Now(Fire(cfg, s, step)))
  {
    var view := s.stores[step.view];
    assert forall t :: t in view && view[t].phase == Active ==> t in OfPhase(view, Active);
  }

  // ---------------------------------------------------------------- one reconcile

  /** Both clean-ups: nothing active goes, and of the finished jobs exactly those beyond the limits. */
  method CleanHistory(cfg: Config, view: Children, failed: seq<Time>, successful: seq<Time>)
    returns (failedOrder: seq<Time>, successOrder: seq<Time>, removed: set<Time>)
    requires Distinct(failed) && Elements(failed) == OfPhase(view, Failed)
    requires Distinct(successful) && Elements(successful) == OfPhase(view, Complete)
    ensures IsOrder(view, Failed, cfg.failedLimit, failedOrder)
    ensures IsOrder(view, Complete, cfg.successLimit, successOrder)
    ensures removed == Trimmed(failedOrder, cfg.failedLimit) + Trimmed(successOrder, cfg.successLimit)
    ensures forall t :: t in removed ==> t in view && view[t].phase != Active
    ensures forall t :: t in view && t in removed ==>
              (view[t].phase == Failed <==> t in Trimmed(failedOrder, cfg.failedLimit))
  {
    var deletedFailed, deletedSuccessful;
    failedOrder, deletedFailed := CleanUp(view, failed, Failed, cfg.failedLimit);
    successOrder, deletedSuccessful := CleanUp(view, successful, Complete, cfg.successLimit);
    removed := Elements(deletedFailed) + Elements(deletedSuccessful);
    forall t | t in Trimmed(failedOrder, cfg.failedLimit)
      ensures t in view && view[t].phase == Failed
    {
      TrimmedInPhase(view, Failed, cfg.failedLimit, failedOrder, t);
    }
    forall t | t in Trimmed(successOrder, cfg.successLimit)
      ensures t in view && view[t].phase == Complete
    {
      TrimmedInPhase(view, Complete, cfg.successLimit, successOrder, t);
    }
  }

  /** An activation that the children do not account for and the deadline admits. */
  ghost predicate Owed(cfg: Config, view: Children, now: Time, u: Time) {
    && Activation(cfg.next, u) && u <= now
    && (forall t :: t in view ==> t < u) && (view.Keys == {} ==> cfg.creation < u)
    && (cfg.deadline.Some? ==> now - cfg.deadline.value < u)
  }

  lemma OwedIffInWindow(cfg: Config, view: Children, last: Option<Time>, now: Time, u: Time)
    requires IsLast(view, last)
    ensures Owed(cfg, view, now, u) <==>
            && (if last.Some? then last.value else cfg.creation) < u <= now
            && (cfg.deadline.Some? ==> now - cfg.deadline.value < u) && Activation(cfg.next, u)
  {
    assert forall t :: t in view <==> t in view.Keys;
  }

  /** The run due: the last one owed, unless more than a hundred are. */
  method DueRun(cfg: Config, view: Children, last: Option<Time>, now: Time) returns (due: Option<Time>)
    requires Schedule(cfg.next) && IsLast(view, last)
    ensures due.Some? ==> Owed(cfg, view, now, due.value) && IsDue(cfg, last, now, due.value)
    ensures forall u :: Owed(cfg, view, now, u) ==>
              (due.Some? && u <= due.value)
              || |Missed(cfg.next, Earliest(last, cfg.creation, cfg.deadline, now), now)| > 100
    ensures due.None? ==>
              var n := |Missed(cfg.next, Earliest(last, cfg.creation, cfg.deadline, now), now)|;
              n == 0 || n > MAX_MISSED_STARTS
  {
    var answer := GetNextSchedule(last, cfg.creation, cfg.deadline, now, cfg.next);
    forall u
      ensures Owed(cfg, view, now, u) <==>
              && (if last.Some? then last.value else cfg.creation) < u <= now
              && (cfg.deadline.Some? ==> now - cfg.deadline.value < u) && Activation(cfg.next, u)
    {
      OwedIffInWindow(cfg, view, last, now, u);
    }
    if answer.TooManyMissed? || answer.missed.None? {
      return None;
    }
    NeverTooLate(last, cfg.creation, cfg.deadline, now, cfg.next, answer.missed.value);
    return answer.missed;
  }

  /** What an undisturbed reconcile decides, from listing the children to the run it starts: a step of the model. */
  method PlanReconcile(cfg: Config, view: Children, children: seq<Time>, now: Time, paused: bool, ghost s: State)
    returns (failedOrder: seq<Time>, successOrder: seq<Time>, removed: set<Time>, last: Option<Time>,
             due: Option<Time>, creates: bool)
    requires Schedule(cfg.next) && Distinct(children) && Elements(children) == view.Keys
    requires Sound(s) && Now(s) == view && s.clock == now
    ensures Enabled(cfg, s, Reconcile(|s.stores| - 1, failedOrder, successOrder, removed, last, due, creates))
    ensures paused ==> due.None?
    ensures !paused && due.None? ==>
              var n := |Missed(cfg.next, Earliest(last, cfg.creation, cfg.deadline, now), now)|;
              n == 0 || n > MAX_MISSED_STARTS
    ensures due.Some? ==> Owed(cfg, view, now, due.value)
    ensures !paused ==> forall u :: Owed(cfg, view, now, u) ==>
              (due.Some? && u <= due.value)
              || |Missed(cfg.next, Earliest(last, cfg.creation, cfg.deadline, now), now)| > 100
    ensures creates <==>
            due.Some? && !(cfg.policy == Forbid && exists t :: t in view && view[t].phase == Active)
    ensures forall t :: t in removed ==> t in view && (view[t].phase == Active ==> cfg.policy == Replace && creates)
    ensures cfg.policy == Replace && creates ==> forall t :: t in view && view[t].phase == Active ==> t in removed
    ensures forall t :: t in view && view[t].phase != Active ==>
              (t in removed <==> t in if view[t].phase == Failed then Trimmed(failedOrder, cfg.failedLimit)
                                      else Trimmed(successOrder, cfg.successLimit))
  {
    var active, failed, successful;
    active, failed, successful, last := ClassifyChildren(view, children);
    failedOrder, successOrder, removed := CleanHistory(cfg, view, failed, successful);
    due, creates := None, false;
    if paused {
      return;
    }
    due := DueRun(cfg, view, last, now);
    if due.None? {
      return;
    }
    if cfg.policy == Forbid && |active| > 0 {
      assert active[0] in Elements(active);
      return;
    }
    assert cfg.policy == Forbid ==> OfPhase(view, Active) == {};
    assert forall t :: t in view && view[t].phase == Active ==> t in OfPhase(view, Active);
    if cfg.policy == Replace {
      removed := removed + Elements(active);
    }
    assert due.value !in view;
    creates := true;
  }
}
