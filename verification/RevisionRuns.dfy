/** The revision history of a CloneSet over every run of template edits, rollbacks, pod changes and reconciles, each of
    which may stop early. */
module RevisionRuns {
  import opened Prelude
  import opened RevisionHistory

  /** The stored revisions, the revisions that pods carry, the template, and what the status records. */
  datatype State = State(store: Store, used: set<Hash>, spec: Data, recorded: Option<Hash>, collisions: nat)

  datatype Step =
    | EditTemplate(spec: Data)
    | PodsGone(left: set<Hash>)
    | Reconcile(order: seq<Hash>, probe: nat, used: set<Hash>, saved: bool, promoted: bool, deleted: nat)

  function Initial(spec: Data): State { State(map[], {}, spec, None, 0) }

  function Activated(h: Hashing, s: State, step: Step): Active
    requires step.Reconcile? && AllStored(s.store, step.order)
  {
    Activate(h, s.store, step.order, s.spec, s.collisions, step.probe)
  }

  function Expendable(h: Hashing, s: State, step: Step): seq<Hash>
    requires step.Reconcile? && AllStored(s.store, step.order)
  {
    var a := Activated(h, s, step);
    NonLive(step.order, CurrentOf(step.order, s.recorded, a.update), a.update, s.used)
  }

  ghost predicate Enabled(h: Hashing, limit: nat, s: State, step: Step) {
    match step
    case EditTemplate(_) => true
    case PodsGone(left) => left <= s.used
    case Reconcile(order, probe, used, _, _, deleted) =>
      && IsListing(s.store, order)
      && (LastEqual(h, s.store, order, Needle(h, s.store, order, s.spec, s.collisions)).None?
          ==> IsProbe(h, s.store, s.spec, s.collisions, probe))
      && var update := Activated(h, s, step).update;
      && used <= s.used + {CurrentOf(order, s.recorded, update), update}
      && deleted <= Excess(Expendable(h, s, step), limit)
  }

  function Fire(h: Hashing, s: State, step: Step): State
    requires step.Reconcile? ==> AllStored(s.store, step.order) && step.deleted <= |Expendable(h, s, step)|
  {
    match step
    case EditTemplate(spec) => s.(spec := spec)
    case PodsGone(left) => s.(used := left)
    case Reconcile(order, _, used, saved, promoted, deleted) =>
      var a := Activated(h, s, step);
      var store := a.store - Elements(Expendable(h, s, step)[..deleted]);
      var current := CurrentOf(order, s.recorded, a.update);
      if saved then
        State(store, used, s.spec, Some(if promoted then a.update else current), a.collisions)
      else
        s.(store := store, used := used)
  }

  ghost predicate Runs(h: Hashing, limit: nat, s: State, steps: seq<Step>, t: State)
    decreases |steps|
  {
    if steps == [] then s == t
    else Enabled(h, limit, s, steps[0]) && Runs(h, limit, Fire(h, s, steps[0]), steps[1..], t)
  }

  // ---------------------------------------------------------------- one look-up

  ghost predicate ContentsDiffer(store: Store) {
    forall m, n :: m in store && n in store && m != n ==> store[m].data != store[n].data
  }

  ghost predicate NumbersDiffer(store: Store) {
    forall m, n :: m in store && n in store && m != n ==> store[m].number != store[n].number
  }

  ghost predicate StoreSound(store: Store) { ContentsDiffer(store) && NumbersDiffer(store) }

  ghost predicate Newest(store: Store, n: Hash) {
    n in store && forall m :: m in store && m != n ==> store[m].number < store[n].number
  }

  /** The update revision holds the template and has the largest number, and the history is sound. */
  ghost predicate UpdateSound(store: Store, a: Active, spec: Data) {
    && StoreSound(a.store)
    && Newest(a.store, a.update) && a.store[a.update].data == spec
    && a.store.Keys == store.Keys + {a.update}
  }

  /** The look-up is well posed: if it has to create, p is the probe at which the search for a name ends. */
  ghost predicate Probed(h: Hashing, store: Store, order: seq<Hash>, spec: Data, c: nat, p: nat) {
    && IsListing(store, order)
    && (LastEqual(h, store, order, Needle(h, store, order, spec, c)).None? ==> IsProbe(h, store, spec, c, p))
  }

  /** The label of the stored copy of the template, if there is one, does not read as another number than that of the
      present probe - or else the copy is the newest revision and the search for a name ends at its own. */
  ghost predicate Recognises(h: Hashing, store: Store, spec: Data, c: nat, p: nat) {
    forall n :: n in store && store[n].data == spec ==>
      !LabelsClash(h, store[n].hashLabel, h.hash(spec, c)) || (h.hash(spec, p) == n && Newest(store, n))
  }

  lemma LastIsLargest(store: Store, order: seq<Hash>, n: Hash)
    requires IsListing(store, order) && n in store
    ensures order != [] && store[n].number <= store[order[|order| - 1]].number < NextRevision(store, order)
  {
  }

  lemma BumpKeepsSound(store: Store, order: seq<Hash>, n: Hash)
    requires StoreSound(store) && IsListing(store, order) && n in store
    ensures var bumped := store[n := store[n].(number := NextRevision(store, order))];
            StoreSound(bumped) && Newest(bumped, n)
  {
    var bumped := store[n := store[n].(number := NextRevision(store, order))];
    forall m | m in bumped && m != n
      ensures bumped[m].number < bumped[n].number
    {
      LastIsLargest(store, order, m);
    }
  }

  lemma CreateKeepsSound(store: Store, order: seq<Hash>, n: Hash, r: Revision)
    requires StoreSound(store) && IsListing(store, order) && n !in store && r.number == NextRevision(store, order)
    requires forall m :: m in store ==> store[m].data != r.data
    ensures StoreSound(store[n := r]) && Newest(store[n := r], n)
  {
    forall m | m in store
      ensures store[m].number < r.number
    {
      LastIsLargest(store, order, m);
    }
  }

  lemma LastIsNewest(store: Store, order: seq<Hash>)
    requires IsListing(store, order) && NumbersDiffer(store) && order != []
    ensures Newest(store, order[|order| - 1])
  {
  }

  /** A look-up that finds the template reuses its revision or moves it to the front. */
  lemma FoundSound(h: Hashing, store: Store, order: seq<Hash>, spec: Data, c: nat, p: nat)
    requires StoreSound(store) && IsListing(store, order)
    requires LastEqual(h, store, order, Needle(h, store, order, spec, c)).Some?
    ensures UpdateSound(store, Activate(h, store, order, spec, c, p), spec)
    ensures Recognises(h, store, spec, c, p)
  {
    var e := LastEqual(h, store, order, Needle(h, store, order, spec, c)).value;
    assert e in order;
    if EqualRevision(h, store[order[|order| - 1]], store[e]) {
      LastIsNewest(store, order);
    } else {
      BumpKeepsSound(store, order, e);
    }
  }

  /** A look-up that does not find it creates a revision of it, or ends at the unrecognised copy. */
  lemma CreatedSound(h: Hashing, store: Store, order: seq<Hash>, spec: Data, c: nat, p: nat)
    requires StoreSound(store) && Probed(h, store, order, spec, c, p)
    requires LastEqual(h, store, order, Needle(h, store, order, spec, c)).None?
    ensures UpdateSound(store, Activate(h, store, order, spec, c, p), spec) <==> Recognises(h, store, spec, c, p)
  {
    var needle, name := Needle(h, store, order, spec, c), h.hash(spec, p);
    if n :| n in store && store[n].data == spec {
      assert n in order && LabelsClash(h, store[n].hashLabel, needle.hashLabel);
      if name !in store {
        assert store[name := needle][n].data == store[name := needle][name].data;
      }
    } else {
      assert name !in store;
      CreateKeepsSound(store, order, name, needle);
    }
  }

  /** For every hash: the update revision is the newest one, holds the template and leaves contents and numbers pairwise
      different, if and only if the stored copy of the template is recognised. */
  lemma UpdateSoundIffRecognised(h: Hashing, store: Store, order: seq<Hash>, spec: Data, c: nat, p: nat)
    requires StoreSound(store) && Probed(h, store, order, spec, c, p)
    ensures UpdateSound(store, Activate(h, store, order, spec, c, p), spec) <==> Recognises(h, store, spec, c, p)
  {
    if LastEqual(h, store, order, Needle(h, store, order, spec, c)).None? {
      CreatedSound(h, store, order, spec, c, p);
    } else {
      FoundSound(h, store, order, spec, c, p);
    }
  }

  /** For every hash: a look-up stores the content a second time if and only if the stored copy has a label that reads
      as another number than that of the present probe, and the name the search ends at is free. */
  lemma StoredTwiceIff(h: Hashing, store: Store, order: seq<Hash>, spec: Data, c: nat, p: nat)
    requires ContentsDiffer(store) && Probed(h, store, order, spec, c, p)
    ensures !ContentsDiffer(Activate(h, store, order, spec, c, p).store) <==>
            exists n :: && n in store && store[n].data == spec
                        && LabelsClash(h, store[n].hashLabel, h.hash(spec, c)) && h.hash(spec, p) !in store
  {
    var needle, name := Needle(h, store, order, spec, c), h.hash(spec, p);
    var e := LastEqual(h, store, order, needle);
    if e.Some? {
      assert e.value in store;
    } else if n :| n in store && store[n].data == spec {
      assert n in order && LabelsClash(h, store[n].hashLabel, needle.hashLabel);
      if name !in store {
        assert store[name := needle][n].data == store[name := needle][name].data;
      }
    }
  }

  ghost predicate BroughtBack(store: Store, a: Active, n: Hash) {
    && a.update == n && a.store.Keys == store.Keys
    && forall m :: m in store && m != n ==> a.store[m] == store[m]
  }

  /** Going back to a stored template brings back its revision under its name, stores nothing new and leaves the others
      alone, if and only if the labels do not clash or the search for a name ends at that revision. */
  lemma RollbackReusesRevision(h: Hashing, store: Store, order: seq<Hash>, n: Hash, c: nat, p: nat)
    requires ContentsDiffer(store) && n in store && Probed(h, store, order, store[n].data, c, p)
    ensures BroughtBack(store, Activate(h, store, order, store[n].data, c, p), n)
            <==> !LabelsClash(h, store[n].hashLabel, h.hash(store[n].data, c)) || h.hash(store[n].data, p) == n
  {
    assert n in order;
  }

  // ---------------------------------------------------------------- what every step keeps

  ghost predicate Inv(s: State) { StoreSound(s.store) && s.used <= s.store.Keys }

  ghost predicate StepRecognises(h: Hashing, s: State, step: Step) {
    step.Reconcile? ==> Recognises(h, s.store, s.spec, s.collisions, step.probe)
  }

  lemma DeletionKeepsSound(store: Store, gone: set<Hash>, n: Hash)
    requires StoreSound(store) && Newest(store, n) && n !in gone
    ensures StoreSound(store - gone) && Newest(store - gone, n)
  {
  }

  lemma GoneNotLive(h: Hashing, s: State, step: Step)
    requires step.Reconcile? && AllStored(s.store, step.order) && step.deleted <= |Expendable(h, s, step)|
    ensures var update := Activated(h, s, step).update;
            var gone := Elements(Expendable(h, s, step)[..step.deleted]);
            gone !! s.used + {CurrentOf(step.order, s.recorded, update), update}
  {
    var r := Expendable(h, s, step);
    assert forall n :: n in r[..step.deleted] ==> n in r;
  }

  lemma ReconcileKeepsInv(h: Hashing, limit: nat, s: State, step: Step)
    requires Inv(s) && step.Reconcile? && Enabled(h, limit, s, step)
    requires UpdateSound(s.store, Activated(h, s, step), s.spec)
    ensures var t := Fire(h, s, step);
            && Inv(t)
            && var update := Activated(h, s, step).update;
            Newest(t.store, update) && t.store[update].data == s.spec
  {
    var a := Activated(h, s, step);
    var gone := Elements(Expendable(h, s, step)[..step.deleted]);
    GoneNotLive(h, s, step);
    DeletionKeepsSound(a.store, gone, a.update);
  }

  lemma StepKeepsInv(h: Hashing, limit: nat, s: State, step: Step)
    requires Inv(s) && Enabled(h, limit, s, step) && StepRecognises(h, s, step)
    ensures Inv(Fire(h, s, step))
  {
    if step.Reconcile? {
      UpdateSoundIffRecognised(h, s.store, step.order, s.spec, s.collisions, step.probe);
      ReconcileKeepsInv(h, limit, s, step);
    }
  }

  /** Every reconcile of the run recognises its template. */
  ghost predicate RecognisedRun(h: Hashing, limit: nat, s: State, steps: seq<Step>)
    decreases |steps|
  {
    steps != [] ==>
      && Enabled(h, limit, s, steps[0]) && StepRecognises(h, s, steps[0])
      && RecognisedRun(h, limit, Fire(h, s, steps[0]), steps[1..])
  }

  /** Every reconcile of the run ends its look-up with a sound update revision. */
  ghost predicate SoundRun(h: Hashing, limit: nat, s: State, steps: seq<Step>)
    decreases |steps|
  {
    steps != [] ==>
      && Enabled(h, limit, s, steps[0])
      && (steps[0].Reconcile? ==> UpdateSound(s.store, Activated(h, s, steps[0]), s.spec))
      && SoundRun(h, limit, Fire(h, s, steps[0]), steps[1..])
  }

  lemma {:induction false} RunKeepsInv(h: Hashing, limit: nat, s: State, steps: seq<Step>, t: State)
    requires Inv(s) && Runs(h, limit, s, steps, t) && RecognisedRun(h, limit, s, steps)
    ensures Inv(t)
    decreases |steps|
  {
    if steps != [] {
      StepKeepsInv(h, limit, s, steps[0]);
      RunKeepsInv(h, limit, Fire(h, s, steps[0]), steps[1..], t);
    }
  }

  lemma {:induction false} SoundIffRecognisedFrom(h: Hashing, limit: nat, s: State, steps: seq<Step>, t: State)
    requires Inv(s) && Runs(h, limit, s, steps, t)
    ensures SoundRun(h, limit, s, steps) <==> RecognisedRun(h, limit, s, steps)
    decreases |steps|
  {
    if steps != [] {
      var step := steps[0];
      if step.Reconcile? {
        UpdateSoundIffRecognised(h, s.store, step.order, s.spec, s.collisions, step.probe);
      }
      if StepRecognises(h, s, step) {
        StepKeepsInv(h, limit, s, step);
        SoundIffRecognisedFrom(h, limit, Fire(h, s, step), steps[1..], t);
      }
    }
  }

  // ---------------------------------------------------------------- over every run, for every hash

  /** Along a run every update revision is sound if and only if every reconcile recognises its template. */
  lemma RunSoundIffRecognised(h: Hashing, limit: nat, spec: Data, steps: seq<Step>, t: State)
    requires Runs(h, limit, Initial(spec), steps, t)
    ensures SoundRun(h, limit, Initial(spec), steps) <==> RecognisedRun(h, limit, Initial(spec), steps)
  {
    SoundIffRecognisedFrom(h, limit, Initial(spec), steps, t);
  }

  /** After a recognised run stored revisions differ in content and in number, and every revision a pod carries is still
      stored. */
  lemma HistoryAlwaysSound(h: Hashing, limit: nat, spec: Data, steps: seq<Step>, t: State)
    requires Runs(h, limit, Initial(spec), steps, t) && RecognisedRun(h, limit, Initial(spec), steps)
    ensures ContentsDiffer(t.store) && NumbersDiffer(t.store) && t.used <= t.store.Keys
  {
    RunKeepsInv(h, limit, Initial(spec), steps, t);
  }

  /** Whatever came before, a reconcile that recognises its template ends, truncation included, with an update revision
      that holds it and is newer than all. */
  lemma UpdateRevisionAlwaysNewest(h: Hashing, limit: nat, spec: Data, steps: seq<Step>, s: State, step: Step)
    requires Runs(h, limit, Initial(spec), steps, s) && RecognisedRun(h, limit, Initial(spec), steps)
    requires step.Reconcile? && Enabled(h, limit, s, step) && StepRecognises(h, s, step)
    ensures var update := Activated(h, s, step).update;
            var t := Fire(h, s, step);
            Newest(t.store, update) && t.store[update].data == s.spec
  {
    RunKeepsInv(h, limit, Initial(spec), steps, s);
    UpdateSoundIffRecognised(h, s.store, step.order, s.spec, s.collisions, step.probe);
    ReconcileKeepsInv(h, limit, s, step);
  }

  // ---------------------------------------------------------------- the recorded revision

  lemma LookUpKeepsKeys(h: Hashing, s: State, step: Step)
    requires step.Reconcile? && AllStored(s.store, step.order)
    ensures s.store.Keys <= Activated(h, s, step).store.Keys
    ensures Activated(h, s, step).update in Activated(h, s, step).store
  {
  }

  /** The recorded current revision survives every reconcile, truncation with any limit included, and stays recorded
      unless the update revision is promoted; promoted it is the update revision. */
  lemma RecordedSurvives(h: Hashing, limit: nat, s: State, step: Step)
    requires step.Reconcile? && Enabled(h, limit, s, step)
    requires s.recorded.Some? ==> s.recorded.value in s.store
    ensures var t := Fire(h, s, step);
            && (s.recorded.Some? ==> s.recorded.value in t.store)
            && (s.recorded.Some? && !(step.saved && step.promoted) ==> t.recorded == s.recorded)
            && (step.saved && step.promoted ==> t.recorded == Some(Activated(h, s, step).update))
            && (t.recorded.Some? ==> t.recorded.value in t.store)
  {
    LookUpKeepsKeys(h, s, step);
    GoneNotLive(h, s, step);
  }

  /** No reconcile of the run stores a promotion. */
  ghost predicate Unpromoted(steps: seq<Step>) {
    forall i :: 0 <= i < |steps| && steps[i].Reconcile? ==> !(steps[i].saved && steps[i].promoted)
  }

  /** A recorded revision is stored and stays recorded until another one is promoted. */
  lemma {:induction false} RecordedUntilPromoted(h: Hashing, limit: nat, s: State, steps: seq<Step>, t: State)
    requires Runs(h, limit, s, steps, t) && (s.recorded.Some? ==> s.recorded.value in s.store)
    ensures t.recorded.Some? ==> t.recorded.value in t.store
    ensures s.recorded.Some? && Unpromoted(steps) ==> t.recorded == s.recorded && s.recorded.value in t.store
    decreases |steps|
  {
    if steps != [] {
      if steps[0].Reconcile? {
        RecordedSurvives(h, limit, s, steps[0]);
      }
      assert Unpromoted(steps) ==> Unpromoted(steps[1..]);
      RecordedUntilPromoted(h, limit, Fire(h, s, steps[0]), steps[1..], t);
    }
  }

  /** So from the start of every run: what the status records is stored. */
  lemma RecordedAlwaysStored(h: Hashing, limit: nat, spec: Data, steps: seq<Step>, t: State)
    requires Runs(h, limit, Initial(spec), steps, t)
    ensures t.recorded.Some? ==> t.recorded.value in t.store
  {
    RecordedUntilPromoted(h, limit, Initial(spec), steps, t);
  }

  // ---------------------------------------------------------------- without collisions of names

  /** Everything so far got its name at the first probe. */
  ghost predicate FirstProbes(h: Hashing, s: State) {
    && s.collisions == 0
    && forall n :: n in s.store ==> n == s.store[n].hashLabel == h.hash(s.store[n].data, 0)
  }

  /** No reconcile of the run meets its name taken by another template. */
  ghost predicate CollisionFree(h: Hashing, limit: nat, s: State, steps: seq<Step>)
    decreases |steps|
  {
    steps != [] ==>
      && Enabled(h, limit, s, steps[0])
      && (steps[0].Reconcile? ==> Activated(h, s, steps[0]).collisions == 0)
      && CollisionFree(h, limit, Fire(h, s, steps[0]), steps[1..])
  }

  lemma FirstProbesKept(h: Hashing, limit: nat, s: State, step: Step)
    requires FirstProbes(h, s) && Enabled(h, limit, s, step)
    requires step.Reconcile? ==> Activated(h, s, step).collisions == 0
    ensures StepRecognises(h, s, step) && FirstProbes(h, Fire(h, s, step))
  {
  }

  /** For every hash, a run without a collision of names is recognised. */
  lemma {:induction false} CollisionFreeIsRecognised(h: Hashing, limit: nat, s: State, steps: seq<Step>, t: State)
    requires FirstProbes(h, s) && Runs(h, limit, s, steps, t) && CollisionFree(h, limit, s, steps)
    ensures RecognisedRun(h, limit, s, steps)
    decreases |steps|
  {
    if steps != [] {
      FirstProbesKept(h, limit, s, steps[0]);
      CollisionFreeIsRecognised(h, limit, Fire(h, s, steps[0]), steps[1..], t);
    }
  }

  /** The templates a run is about. */
  ghost predicate TemplatesIn(steps: seq<Step>, templates: set<Data>) {
    forall i :: 0 <= i < |steps| && steps[i].EditTemplate? ==> steps[i].spec in templates
  }

  ghost predicate NamesDiffer(h: Hashing, templates: set<Data>) {
    forall d, e :: d in templates && e in templates && d != e ==> h.hash(d, 0) != h.hash(e, 0)
  }

  lemma NoCollision(h: Hashing, limit: nat, s: State, step: Step, templates: set<Data>)
    requires FirstProbes(h, s) && Enabled(h, limit, s, step) && step.Reconcile? && NamesDiffer(h, templates)
    requires s.spec in templates && forall n :: n in s.store ==> s.store[n].data in templates
    ensures Activated(h, s, step).collisions == 0
    ensures forall n :: n in Fire(h, s, step).store ==> Fire(h, s, step).store[n].data in templates
  {
    assert Ends(h, s.store, s.spec, 0);
  }

  lemma {:induction false} DifferentNamesFrom(h: Hashing, limit: nat, s: State, steps: seq<Step>, t: State,
                                              templates: set<Data>)
    requires FirstProbes(h, s) && Runs(h, limit, s, steps, t) && NamesDiffer(h, templates)
    requires TemplatesIn(steps, templates) && s.spec in templates
    requires forall n :: n in s.store ==> s.store[n].data in templates
    ensures CollisionFree(h, limit, s, steps)
    decreases |steps|
  {
    if steps != [] {
      var step := steps[0];
      if step.Reconcile? {
        NoCollision(h, limit, s, step, templates);
      }
      FirstProbesKept(h, limit, s, step);
      DifferentNamesFrom(h, limit, Fire(h, s, step), steps[1..], t, templates);
    }
  }

  /** For every hash: if the templates of a run have different names at the first probe, every update revision of the
      run is sound, and so is the history at its end. */
  lemma DifferentNamesStaySound(h: Hashing, limit: nat, spec: Data, steps: seq<Step>, t: State, templates: set<Data>)
    requires Runs(h, limit, Initial(spec), steps, t)
    requires NamesDiffer(h, templates) && TemplatesIn(steps, templates) && spec in templates
    ensures SoundRun(h, limit, Initial(spec), steps)
    ensures ContentsDiffer(t.store) && NumbersDiffer(t.store) && t.used <= t.store.Keys
  {
    DifferentNamesFrom(h, limit, Initial(spec), steps, t, templates);
    CollisionFreeIsRecognised(h, limit, Initial(spec), steps, t);
    RunSoundIffRecognised(h, limit, spec, steps, t);
    HistoryAlwaysSound(h, limit, spec, steps, t);
  }

  // ---------------------------------------------------------------- truncation

  ghost predicate Ascending(store: Store, names: seq<Hash>) {
    && AllStored(store, names) && Distinct(names)
    && forall i, j :: 0 <= i < j < |names| ==> store[names[i]].number < store[names[j]].number
  }

  lemma AscendingAppend(store: Store, front: seq<Hash>, n: Hash)
    requires Ascending(store, front) && n in store
    requires forall m :: m in front ==> store[m].number < store[n].number
    ensures Ascending(store, front + [n])
  {
  }

  lemma AscendingFront(store: Store, names: seq<Hash>)
    requires Ascending(store, names) && names != []
    ensures Ascending(store, names[..|names| - 1]) && names[|names| - 1] in store
    ensures forall m :: m in names[..|names| - 1] ==> store[m].number < store[names[|names| - 1]].number
  {
    assert names[|names| - 1] in names;
    assert forall m :: m in names[..|names| - 1] ==> m in names;
  }

  lemma {:induction false} NonLiveAscends(store: Store, order: seq<Hash>, current: Hash, update: Hash, used: set<Hash>)
    requires Ascending(store, order)
    ensures Ascending(store, NonLive(order, current, update, used))
  {
    if order != [] {
      var n := |order| - 1;
      AscendingFront(store, order);
      NonLiveAscends(store, order[..n], current, update, used);
      if !Live(order[n], current, update, used) {
        AscendingAppend(store, NonLive(order[..n], current, update, used), order[n]);
      }
    }
  }

  lemma ListingAscends(store: Store, order: seq<Hash>)
    requires IsListing(store, order) && NumbersDiffer(store)
    ensures forall i, j :: 0 <= i < j < |order| ==> store[order[i]].number < store[order[j]].number
  {
  }

  lemma ExpendableAscends(h: Hashing, limit: nat, s: State, step: Step)
    requires Inv(s) && step.Reconcile? && Enabled(h, limit, s, step)
    ensures var r := Expendable(h, s, step);
            && Distinct(r) && Elements(r) <= s.store.Keys && s.store.Keys <= Activated(h, s, step).store.Keys
            && forall i, j :: 0 <= i < j < |r| ==> s.store[r[i]].number < s.store[r[j]].number
  {
    var a := Activated(h, s, step);
    ListingAscends(s.store, step.order);
    NonLiveAscends(s.store, step.order, CurrentOf(step.order, s.recorded, a.update), a.update, s.used);
  }

  lemma FiredKeys(h: Hashing, s: State, step: Step)
    requires step.Reconcile? && AllStored(s.store, step.order) && step.deleted <= |Expendable(h, s, step)|
    ensures Fire(h, s, step).store.Keys
            == Activated(h, s, step).store.Keys - Elements(Expendable(h, s, step)[..step.deleted])
  {
  }

  /** However far a truncation gets, it keeps the current and the update revision and those that pods carry. */
  lemma TruncationKeepsLive(h: Hashing, limit: nat, s: State, step: Step, n: Hash)
    requires step.Reconcile? && Enabled(h, limit, s, step)
    requires var a := Activated(h, s, step);
             n in a.store && Live(n, CurrentOf(step.order, s.recorded, a.update), a.update, s.used)
    ensures var t := Fire(h, s, step); n in t.store && t.store[n] == Activated(h, s, step).store[n]
  {
  }

  /** However far a truncation gets, what it has deleted is older than every other revision that is not live. */
  lemma TruncationTakesOldest(h: Hashing, limit: nat, s: State, step: Step, m: Hash, n: Hash)
    requires Inv(s) && step.Reconcile? && Enabled(h, limit, s, step)
    requires var r := Expendable(h, s, step); var t := Fire(h, s, step);
             m in r && n in r && m !in t.store && n in t.store
    ensures s.store[m].number < s.store[n].number
  {
    var a := Activated(h, s, step);
    var r := Expendable(h, s, step);
    ExpendableAscends(h, limit, s, step);
    assert m in r[..step.deleted] && n !in r[..step.deleted];
    var i :| 0 <= i < step.deleted && r[i] == m;
    var j :| 0 <= j < |r| && r[j] == n;
  }

  /** A truncation that is not cut short leaves as many revisions that are not live as the limit allows. */
  lemma TruncationLeavesLimit(h: Hashing, limit: nat, s: State, step: Step)
    requires Inv(s) && step.Reconcile? && Enabled(h, limit, s, step)
    requires step.deleted == Excess(Expendable(h, s, step), limit)
    ensures var nonLive := Elements(Expendable(h, s, step));
            |Fire(h, s, step).store.Keys * nonLive| == Min(|nonLive|, limit)
  {
    var r := Expendable(h, s, step);
    ExpendableAscends(h, limit, s, step);
    KeptSuffix(r, step.deleted, Activated(h, s, step).store.Keys);
    FiredKeys(h, s, step);
  }

  /** Deleting a prefix of distinct stored names leaves the rest. */
  lemma KeptSuffix(r: seq<Hash>, k: nat, keys: set<Hash>)
    requires Distinct(r) && k <= |r| && Elements(r) <= keys
    ensures (keys - Elements(r[..k])) * Elements(r) == Elements(r[k..])
    ensures |Elements(r[k..])| == |r| - k && |Elements(r)| == |r|
  {
    assert r == r[..k] + r[k..];
    DistinctSize(r[k..]);
    DistinctSize(r);
    forall n
      ensures n in (keys - Elements(r[..k])) * Elements(r) <==> n in Elements(r[k..])
    {
      if n in r[k..] {
        var j :| k <= j < |r| && r[j] == n;
        assert n !in r[..k];
      }
    }
  }

  // ---------------------------------------------------------------- two templates whose names collide

  lemma RunPrepends(h: Hashing, limit: nat, s: State, step: Step, t: State, steps: seq<Step>, u: State)
    requires Enabled(h, limit, s, step) && Fire(h, s, step) == t && Runs(h, limit, t, steps, u)
    ensures Runs(h, limit, s, [step] + steps, u)
  {
    assert ([step] + steps)[1..] == steps;
  }

  /** Different templates with the same name at the first and at the second probe, whose labels read as two different
      numbers; at the third probe the name is a new one. */
  ghost predicate Collide(h: Hashing, a: Data, b: Data) {
    && a != b && h.hash(a, 0) == h.hash(b, 0) && h.hash(a, 1) == h.hash(b, 1)
    && LabelsClash(h, h.hash(a, 0), h.hash(a, 1))
    && h.hash(a, 2) != h.hash(a, 0) && h.hash(a, 2) != h.hash(a, 1)
  }

  function Looked(order: seq<Hash>, probe: nat): Step { Reconcile(order, probe, {}, true, true, 0) }

  /** The stores after the first, the second and the third look-up. */
  function One(h: Hashing, a: Data): Store { map[h.hash(a, 0) := Revision(a, h.hash(a, 0), 1)] }

  function Two(h: Hashing, a: Data, b: Data): Store { One(h, a)[h.hash(b, 1) := Revision(b, h.hash(b, 0), 2)] }

  function Three(h: Hashing, a: Data, b: Data): Store { Two(h, a, b)[h.hash(a, 2) := Revision(a, h.hash(a, 1), 3)] }

  lemma FirstTemplate(h: Hashing, limit: nat, a: Data)
    ensures Enabled(h, limit, Initial(a), Looked([], 0))
    ensures Fire(h, Initial(a), Looked([], 0)) == State(One(h, a), {}, a, Some(h.hash(a, 0)), 0)
  {
  }

  lemma CollidingTemplate(h: Hashing, limit: nat, a: Data, b: Data)
    requires Collide(h, a, b)
    ensures var s := State(One(h, a), {}, b, Some(h.hash(a, 0)), 0);
            var step := Looked([h.hash(a, 0)], 1);
            && Enabled(h, limit, s, step)
            && Fire(h, s, step) == State(Two(h, a, b), {}, b, Some(h.hash(b, 1)), 1)
  {
    var s := State(One(h, a), {}, b, Some(h.hash(a, 0)), 0);
    var order := [h.hash(a, 0)];
    assert !Ends(h, s.store, b, 0) && Ends(h, s.store, b, 1);
    assert LastEqual(h, s.store, order, Needle(h, s.store, order, b, 0)).None?;
  }

  lemma ForgottenTemplate(h: Hashing, limit: nat, a: Data, b: Data)
    requires Collide(h, a, b)
    ensures var s := State(Two(h, a, b), {}, a, Some(h.hash(b, 1)), 1);
            var step := Looked([h.hash(a, 0), h.hash(b, 1)], 2);
            && Enabled(h, limit, s, step)
            && Fire(h, s, step).store == Three(h, a, b)
  {
    var s := State(Two(h, a, b), {}, a, Some(h.hash(b, 1)), 1);
    var order := [h.hash(a, 0), h.hash(b, 1)];
    assert !Ends(h, s.store, a, 1) && Ends(h, s.store, a, 2);
    assert LastEqual(h, s.store, order, Needle(h, s.store, order, a, 1)).None?;
  }

  function CollidingSteps(h: Hashing, a: Data, b: Data): seq<Step> {
    [Looked([], 0), EditTemplate(b), Looked([h.hash(a, 0)], 1), EditTemplate(a),
     Looked([h.hash(a, 0), h.hash(b, 1)], 2)]
  }

  /** For every hash and every two such templates: the first, then the second, whose name collides, then the first
      again. Its revision is not recognised, because the label now carries the second probe, and its content is stored
      twice. */
  lemma CollidingTemplatesStoreTwice(h: Hashing, limit: nat, a: Data, b: Data) returns (t: State)
    requires Collide(h, a, b)
    ensures Runs(h, limit, Initial(a), CollidingSteps(h, a, b), t) && !ContentsDiffer(t.store)
  {
    var steps := CollidingSteps(h, a, b);
    var s1 := State(One(h, a), {}, a, Some(h.hash(a, 0)), 0);
    var s3 := State(Two(h, a, b), {}, b, Some(h.hash(b, 1)), 1);
    t := LastSteps(h, limit, a, b);
    CollidingTemplate(h, limit, a, b);
    RunPrepends(h, limit, s1.(spec := b), steps[2], s3, steps[3..], t);
    RunPrepends(h, limit, s1, steps[1], s1.(spec := b), steps[2..], t);
    FirstTemplate(h, limit, a);
    RunPrepends(h, limit, Initial(a), steps[0], s1, steps[1..], t);
    assert [steps[0]] + steps[1..] == steps;
  }

  lemma LastSteps(h: Hashing, limit: nat, a: Data, b: Data) returns (t: State)
    requires Collide(h, a, b)
    ensures var s := State(Two(h, a, b), {}, b, Some(h.hash(b, 1)), 1);
            Runs(h, limit, s, CollidingSteps(h, a, b)[3..], t) && !ContentsDiffer(t.store)
  {
    var s3 := State(Two(h, a, b), {}, b, Some(h.hash(b, 1)), 1);
    var step := Looked([h.hash(a, 0), h.hash(b, 1)], 2);
    ForgottenTemplate(h, limit, a, b);
    t := Fire(h, s3.(spec := a), step);
    assert t.store[h.hash(a, 0)].data == t.store[h.hash(a, 2)].data;
    RunPrepends(h, limit, s3.(spec := a), step, t, [], t);
    RunPrepends(h, limit, s3, EditTemplate(a), s3.(spec := a), [step] + [], t);
    assert [EditTemplate(a)] + ([step] + []) == CollidingSteps(h, a, b)[3..];
  }
}
