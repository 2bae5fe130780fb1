/** The budget across the controller's writes. A ledger follows a run: the pods whose disruption has been paid for, in
    whatever epoch, and that no write of the controller has let go of since. */
module PubLedger {
  import opened Prelude
  import opened PubStatus
  import opened PubProtocol

  /** `dropping` is what the controller will let go of if its pending write succeeds. */
  datatype Ledger = Ledger(owed: set<PodName>, dropping: set<PodName>)

  const NOTHING_OWED := Ledger({}, {})

  function RecordedPods(st: Status): set<PodName> { st.disrupted.Keys + st.unavailable.Keys }

  /** No record of the pod is inside its time window. */
  predicate Expired(st: Status, p: PodName, now: Time) {
    && (p in st.disrupted ==> st.disrupted[p] + DELETION_TIMEOUT < now)
    && (p in st.unavailable ==> st.unavailable[p] + UPDATED_DELAY_CHECK_TIME < now)
  }

  /** The recorded pods that are not listed active any more, or whose records have expired. */
  function LetGo(st: Status, pods: seq<PodInfo>, now: Time): set<PodName> {
    set p | p in RecordedPods(st) && (p !in ActiveNames(pods) || Expired(st, p, now))
  }

  /** These and no others lose their records. */
  lemma LetGoExactly(st: Status, pods: seq<PodInfo>, desired: nat, now: Time)
    ensures RecordedPods(Recalculated(st, pods, desired, now)) == RecordedPods(st) - LetGo(st, pods, now)
  {
  }

  function Noted(l: Ledger, s: State, step: Step): Ledger
    requires Enabled(s, step)
  {
    match step
    case TryUpdate(w) => if s.hooks[w].base == s.Current() then l.(owed := l.owed + {s.hooks[w].req.pod}) else l
    case SyncRead(base, pods, _, now) => l.(dropping := LetGo(s.versions[base], pods, now))
    case SyncWrite => if s.sync.base == s.Current() then l.(owed := l.owed - l.dropping) else l
    case _ => l
  }

  ghost predicate RunsWith(s: State, l: Ledger, steps: seq<Step>, t: State, m: Ledger)
    decreases |steps|
  {
    if steps == [] then s == t && l == m
    else Enabled(s, steps[0]) && RunsWith(Fire(s, steps[0]), Noted(l, s, steps[0]), steps[1..], t, m)
  }

  /** Every run has its ledger. */
  lemma {:induction false} LedgerOf(s: State, l: Ledger, steps: seq<Step>, t: State) returns (m: Ledger)
    requires Runs(s, steps, t)
    ensures RunsWith(s, l, steps, t, m)
    decreases |steps|
  {
    if steps == [] {
      return l;
    }
    m := LedgerOf(Fire(s, steps[0]), Noted(l, s, steps[0]), steps[1..], t);
  }

  lemma {:induction false} RunsWithoutLedger(s: State, l: Ledger, steps: seq<Step>, t: State, m: Ledger)
    requires RunsWith(s, l, steps, t, m)
    ensures Runs(s, steps, t)
    decreases |steps|
  {
    if steps != [] {
      RunsWithoutLedger(Fire(s, steps[0]), Noted(l, s, steps[0]), steps[1..], t, m);
    }
  }

  // ---------------------------------------------------------------------------------------------------------
  // What is owed is on record.

  ghost predicate OwedRecorded(s: State, l: Ledger) {
    && s.WellFormed() && l.owed <= RecordedPods(s.Stored())
    && (s.sync.Writing? ==> && s.sync.base < |s.versions|
                            && RecordedPods(s.versions[s.sync.base]) - l.dropping <= RecordedPods(s.sync.next))
  }

  lemma CommitKeepsRecorded(s: State, l: Ledger, w: HookId)
    requires Inv(s) && OwedRecorded(s, l)
    requires w in s.hooks && s.hooks[w].Updating? && s.hooks[w].base == s.Current()
    ensures OwedRecorded(Committed(s, w), l.(owed := l.owed + {s.hooks[w].req.pod}))
  {
    var h := s.hooks[w];
    CommitIsAtomic(s, w);
    DecrementedAccounts(s.Stored(), h.req.pod, h.req.op, h.at);
  }

  lemma ReadKeepsRecorded(s: State, l: Ledger, base: nat, pods: seq<PodInfo>, desired: nat, now: Time)
    requires OwedRecorded(s, l) && Enabled(s, SyncRead(base, pods, desired, now))
    ensures OwedRecorded(Fire(s, SyncRead(base, pods, desired, now)), Noted(l, s, SyncRead(base, pods, desired, now)))
  {
    LetGoExactly(s.versions[base], pods, desired, now);
  }

  /** A step that stores no charge and reads no list. */
  lemma OtherStepKeepsRecorded(s: State, l: Ledger, step: Step)
    requires OwedRecorded(s, l) && Enabled(s, step) && !step.SyncRead?
    requires step.TryUpdate? ==> s.hooks[step.w].base != s.Current()
    ensures OwedRecorded(Fire(s, step), Noted(l, s, step))
  {
  }

  lemma RecordedKept(s: State, l: Ledger, step: Step)
    requires Inv(s) && OwedRecorded(s, l) && Enabled(s, step)
    ensures OwedRecorded(Fire(s, step), Noted(l, s, step))
  {
    if step.SyncRead? {
      ReadKeepsRecorded(s, l, step.base, step.pods, step.desired, step.now);
    } else if step.TryUpdate? && s.hooks[step.w].base == s.Current() {
      CommitKeepsRecorded(s, l, step.w);
    } else {
      OtherStepKeepsRecorded(s, l, step);
    }
  }

  lemma {:induction false} RunKeepsRecorded(s: State, l: Ledger, steps: seq<Step>, t: State, m: Ledger)
    requires Inv(s) && OwedRecorded(s, l) && RunsWith(s, l, steps, t, m)
    ensures OwedRecorded(t, m)
    decreases |steps|
  {
    if steps != [] {
      StepKeepsInv(s, steps[0]);
      RecordedKept(s, l, steps[0]);
      RunKeepsRecorded(Fire(s, steps[0]), Noted(l, s, steps[0]), steps[1..], t, m);
    }
  }

  /** The pods charged in an epoch. */
  function ChargedIn(epoch: Epoch): set<PodName> {
    PodsUpdated(Charges(epoch.commits)) + PodsDisrupted(Charges(epoch.commits))
  }

  /** The pods counted as available were not recorded then, so what is recorded now takes no more from them than the
      charges since. */
  lemma OwedTakesOnlyCharged(s: State, owed: set<PodName>)
    requires Inv(s) && owed <= RecordedPods(s.Stored())
    ensures Last(s).available - ChargedIn(Last(s)) <= Last(s).available - owed
    ensures |Last(s).available - ChargedIn(Last(s))| <= |Last(s).available - owed|
  {
    assert EpochSound(Last(s));
    ReplayRecords(Last(s).published, Charges(Last(s).commits));
    SubsetSize(Last(s).available - ChargedIn(Last(s)), Last(s).available - owed);
  }

  lemma NothingCharged(epoch: Epoch)
    requires epoch.commits == []
    ensures ChargedIn(epoch) == {} && epoch.available - ChargedIn(epoch) == epoch.available
  {
    assert Charges(epoch.commits) == [];
  }

  lemma ChargedLeavesDesired(steps: seq<Step>, s: State)
    requires Runs(INITIAL, steps, s) && s.WellFormed()
    ensures |Last(s).available - ChargedIn(Last(s))|
            >= Min(|Last(s).available|, Last(s).published.desiredAvailable)
  {
    if Last(s).commits == [] {
      NothingCharged(Last(s));
    } else {
      DesiredPodsLeft(steps, s, |s.epochs| - 1);
    }
  }

  lemma LedgerSound(steps: seq<Step>, s: State, l: Ledger)
    requires RunsWith(INITIAL, NOTHING_OWED, steps, s, l)
    ensures Runs(INITIAL, steps, s) && Inv(s) && l.owed <= RecordedPods(s.Stored())
  {
    InitialInv();
    RunsWithoutLedger(INITIAL, NOTHING_OWED, steps, s, l);
    RunKeepsInv(INITIAL, steps, s);
    RunKeepsRecorded(INITIAL, NOTHING_OWED, steps, s, l);
  }

  /** Across all epochs of every run: of the pods the controller last counted as available, the desired number is left
      after removing every pod that was ever paid for and not let go of since; if it counted fewer, all are left. */
  lemma DesiredPodsLeftAcross(steps: seq<Step>, s: State, l: Ledger)
    requires RunsWith(INITIAL, NOTHING_OWED, steps, s, l)
    ensures s.WellFormed() && l.owed <= RecordedPods(s.Stored())
    ensures |Last(s).available - l.owed| >= Min(|Last(s).available|, Last(s).published.desiredAvailable)
  {
    LedgerSound(steps, s, l);
    ChargedLeavesDesired(steps, s);
    OwedTakesOnlyCharged(s, l.owed);
  }

  // ---------------------------------------------------------------------------------------------------------
  // When nothing is let go of.

  /** Every list the controller works on shows the recorded pods active, inside their time windows. */
  ghost predicate NothingLetGo(s: State, steps: seq<Step>)
    decreases |steps|
  {
    steps != [] ==>
      && Enabled(s, steps[0])
      && (steps[0].SyncRead? ==> LetGo(s.versions[steps[0].base], steps[0].pods, steps[0].now) == {})
      && NothingLetGo(Fire(s, steps[0]), steps[1..])
  }

  /** The pods charged in any epoch. */
  function ChargedEver(epochs: seq<Epoch>): set<PodName> {
    if epochs == [] then {}
    else ChargedEver(epochs[..|epochs| - 1]) + ChargedIn(epochs[|epochs| - 1])
  }

  lemma ChargedAfter(epoch: Epoch, c: Commit)
    ensures ChargedIn(epoch.(commits := epoch.commits + [c])) == ChargedIn(epoch) + {c.charge.pod}
  {
    var longer := Charges(epoch.commits + [c]);
    assert longer[..|epoch.commits|] == Charges(epoch.commits);
  }

  lemma CommitOwes(s: State, w: HookId)
    requires s.WellFormed() && w in s.hooks && s.hooks[w].Updating?
    ensures ChargedEver(Committed(s, w).epochs) == ChargedEver(s.epochs) + {s.hooks[w].req.pod}
  {
    var h := s.hooks[w];
    var n := |s.epochs| - 1;
    ChargedAfter(s.epochs[n], Commit(w, Charge(h.req.pod, h.req.op, h.at)));
    assert Committed(s, w).epochs[..n] == s.epochs[..n];
  }

  lemma WriteOwes(epochs: seq<Epoch>, epoch: Epoch)
    requires epoch.commits == []
    ensures ChargedEver(epochs + [epoch]) == ChargedEver(epochs)
  {
    assert (epochs + [epoch])[..|epochs|] == epochs;
    NothingCharged(epoch);
  }

  lemma {:induction false} AllOwed(s: State, l: Ledger, steps: seq<Step>, t: State, m: Ledger)
    requires RunsWith(s, l, steps, t, m) && NothingLetGo(s, steps)
    requires l == Ledger(ChargedEver(s.epochs), {})
    ensures m == Ledger(ChargedEver(t.epochs), {})
    decreases |steps|
  {
    if steps != [] {
      var step := steps[0];
      if step.TryUpdate? && s.hooks[step.w].base == s.Current() {
        CommitOwes(s, step.w);
      } else if step.SyncWrite? && s.sync.base == s.Current() {
        WriteOwes(s.epochs, Epoch(s.sync.next, s.sync.available, []));
      }
      AllOwed(Fire(s, step), Noted(l, s, step), steps[1..], t, m);
    }
  }

  /** If nothing is let go of, that is every pod charged in any epoch of the run. */
  lemma DesiredPodsLeftOfAllCharged(steps: seq<Step>, s: State)
    requires Runs(INITIAL, steps, s) && NothingLetGo(INITIAL, steps)
    ensures s.WellFormed()
    ensures |Last(s).available - ChargedEver(s.epochs)|
            >= Min(|Last(s).available|, Last(s).published.desiredAvailable)
  {
    var l := LedgerOf(INITIAL, NOTHING_OWED, steps, s);
    NothingCharged(INITIAL.epochs[0]);
    AllOwed(INITIAL, NOTHING_OWED, steps, s, l);
    DesiredPodsLeftAcross(steps, s, l);
  }

  // ---------------------------------------------------------------------------------------------------------
  // Who is admitted without charge.

  /** Whatever is on record, in any version or in a pending write, has been charged for. */
  ghost predicate RecordsCharged(s: State) {
    && (forall k :: 0 <= k < |s.versions| ==> RecordedPods(s.versions[k]) <= ChargedEver(s.epochs))
    && (s.sync.Writing? ==> RecordedPods(s.sync.next) <= ChargedEver(s.epochs))
  }

  lemma CommitRecords(s: State, w: HookId)
    requires Inv(s) && w in s.hooks && s.hooks[w].Updating? && s.hooks[w].base == s.Current()
    ensures RecordedPods(s.hooks[w].next) == RecordedPods(s.Stored()) + {s.hooks[w].req.pod}
  {
    var h := s.hooks[w];
    CommitIsAtomic(s, w);
    DecrementedAccounts(s.Stored(), h.req.pod, h.req.op, h.at);
  }

  lemma CommitKeepsCharged(s: State, w: HookId)
    requires s.WellFormed() && RecordsCharged(s) && w in s.hooks && s.hooks[w].Updating?
    requires RecordedPods(s.hooks[w].next) == RecordedPods(s.Stored()) + {s.hooks[w].req.pod}
    ensures RecordsCharged(Committed(s, w))
  {
    CommitOwes(s, w);
    assert RecordedPods(s.versions[|s.versions| - 1]) <= ChargedEver(s.epochs);
  }

  lemma SyncKeepsCharged(s: State, step: Step)
    requires s.WellFormed() && RecordsCharged(s) && Enabled(s, step) && (step.SyncRead? || step.SyncWrite?)
    ensures RecordsCharged(Fire(s, step))
  {
    if step.SyncRead? {
      LetGoExactly(s.versions[step.base], step.pods, step.desired, step.now);
    } else if s.sync.base == s.Current() {
      WriteOwes(s.epochs, Epoch(s.sync.next, s.sync.available, []));
    }
  }

  lemma ChargedKept(s: State, step: Step)
    requires Inv(s) && RecordsCharged(s) && Enabled(s, step)
    ensures RecordsCharged(Fire(s, step))
  {
    if step.SyncRead? || step.SyncWrite? {
      SyncKeepsCharged(s, step);
    } else if step.TryUpdate? && s.hooks[step.w].base == s.Current() {
      CommitRecords(s, step.w);
      CommitKeepsCharged(s, step.w);
    } else {
      assert Fire(s, step).epochs == s.epochs && Fire(s, step).sync == s.sync;
    }
  }

  lemma {:induction false} RunKeepsCharged(s: State, steps: seq<Step>, t: State)
    requires Inv(s) && RecordsCharged(s) && Runs(s, steps, t)
    ensures RecordsCharged(t)
    decreases |steps|
  {
    if steps != [] {
      StepKeepsInv(s, steps[0]);
      ChargedKept(s, steps[0]);
      RunKeepsCharged(Fire(s, steps[0]), steps[1..], t);
    }
  }

  ghost predicate IsFree(s: State, w: HookId) {
    w in s.hooks && s.hooks[w].Finished? && s.hooks[w].verdict.AdmittedFree?
  }

  lemma FreeVerdictStays(s: State, step: Step, w: HookId)
    requires Enabled(s, step) && w in s.hooks
    ensures var t := Fire(s, step);
            w in t.hooks && s.versions <= t.versions && (IsFree(t, w) <==> IsFree(s, w))
  {
  }

  lemma {:induction false} FreeVerdictIsFinal(s: State, steps: seq<Step>, t: State, w: HookId)
    requires Runs(s, steps, t) && w in s.hooks
    ensures w in t.hooks && s.versions <= t.versions && (IsFree(t, w) <==> IsFree(s, w))
    decreases |steps|
  {
    if steps != [] {
      FreeVerdictStays(s, steps[0], w);
      FreeVerdictIsFinal(Fire(s, steps[0]), steps[1..], t, w);
    }
  }

  /** For every run through the start of hook w: it ends up admitted without charge if and only if its pod is exempt, or
      the version it saw then wants nothing available or has the pod on record; and a pod on record has been charged in
      some epoch. */
  lemma FreeOnlyForGoodReason(first: seq<Step>, s: State, w: HookId, req: Request, free: bool, seen: nat,
                              second: seq<Step>, t: State)
    requires Runs(INITIAL, first, s) && Enabled(s, Begin(w, req, free, seen))
    requires Runs(Fire(s, Begin(w, req, free, seen)), second, t)
    ensures seen < |t.versions|
    ensures IsFree(t, w) <==> free || t.versions[seen].desiredAvailable == 0 || req.pod in t.versions[seen].unavailable
                              || req.pod in t.versions[seen].disrupted
    ensures IsFree(t, w) && !free && t.versions[seen].desiredAvailable != 0 ==> req.pod in ChargedEver(t.epochs)
  {
    var begun := Begin(w, req, free, seen);
    InitialInv();
    RunKeepsInv(INITIAL, first, s);
    RunKeepsCharged(INITIAL, first, s);
    StepKeepsInv(s, begun);
    ChargedKept(s, begun);
    RunKeepsCharged(Fire(s, begun), second, t);
    FreeIff(s, w, req, free, seen);
    FreeVerdictIsFinal(Fire(s, begun), second, t, w);
    assert Fire(s, begun).versions == s.versions;
  }
}
