/** Carrying out the DaemonSet's plan: creations with slow start, deletions all at once, and the expectation counters
    that must be left exactly balanced. */
module DaemonSync {
  import opened Prelude
  import SlowStart

  const SLOW_START_INITIAL_BATCH_SIZE: nat := 1

  /** The expectation counters of one DaemonSet. */
  class Expectations {
    var add: int
    var del: int

    constructor ()
      ensures add == 0 && del == 0
    {
      add, del := 0, 0;
    }

    method SetExpectations(adds: int, dels: int)
      modifies this
      ensures add == adds && del == dels
    {
      add, del := adds, dels;
    }

    method LowerExpectations(adds: int, dels: int)
      modifies this
      ensures add == old(add) - adds && del == old(del) - dels
    {
      add, del := add - adds, del - dels;
    }

    method CreationObserved()
      modifies this
      ensures add == old(add) - 1 && del == old(del)
    {
      LowerExpectations(1, 0);
    }

    method DeletionObserved()
      modifies this
      ensures add == old(add) && del == old(del) - 1
    {
      LowerExpectations(0, 1);
    }
  }

  /** A create call may succeed, fail because the namespace is being torn down, or fail otherwise. */
  datatype CreateOutcome = Created | NamespaceTerminating | CreateFailed

  datatype DeleteOutcome = Deleted | PodNotFound | DeleteFailed

  ghost function OrdinaryFailures(create: nat -> CreateOutcome): nat -> bool {
    i => i >= 0 && create(i).CreateFailed?
  }

  function CountCreates(create: nat -> CreateOutcome, o: CreateOutcome, n: nat): nat {
    if n == 0 then 0 else CountCreates(create, o, n - 1) + if create(n - 1) == o then 1 else 0
  }

  function CountDeletes(delete: nat -> DeleteOutcome, o: DeleteOutcome, n: nat): nat {
    if n == 0 then 0 else CountDeletes(delete, o, n - 1) + if delete(n - 1) == o then 1 else 0
  }

  /** Creates pods on nodes[0], nodes[1], ... and deletes pods[0], pods[1], ..., at most burstReplicas of either.
      Whatever fails, what is still expected at the end is exactly what the cluster will report: one creation per
      successful create, one deletion per successful delete - except that a creation refused because the namespace is
      being torn down stays expected. */
  method SyncNodes(exp: Expectations, pods: seq<string>, nodes: seq<string>, burstReplicas: nat,
                   create: nat -> CreateOutcome, delete: nat -> DeleteOutcome)
    returns (attempted: nat, deletions: nat, errors: nat)
    modifies exp
    ensures attempted == SlowStart.Attempted(OrdinaryFailures(create), 0, Min(|nodes|, burstReplicas),
                                             SLOW_START_INITIAL_BATCH_SIZE)
    ensures attempted <= Min(|nodes|, burstReplicas)
    ensures deletions == Min(|pods|, burstReplicas)
    ensures exp.add == CountCreates(create, Created, attempted) + CountCreates(create, NamespaceTerminating, attempted)
    ensures exp.del == CountDeletes(delete, Deleted, deletions)
    ensures errors == CountCreates(create, CreateFailed, attempted) + CountDeletes(delete, DeleteFailed, deletions)
  {
    var createDiff, deleteDiff := |nodes|, |pods|;
    if createDiff > burstReplicas {
      createDiff := burstReplicas;
    }
    if deleteDiff > burstReplicas {
      deleteDiff := burstReplicas;
    }
    exp.SetExpectations(createDiff, deleteDiff);
    attempted, errors := CreateBatches(exp, createDiff, create);
    deletions := deleteDiff;
    var deleteErrors := DeleteAll(exp, deleteDiff, delete);
    errors := errors + deleteErrors;
    CreatesAddUp(create, attempted);
    DeletesAddUp(delete, deletions);
  }

  /** One batch: the creations pos..pos+size-1, next to `before` ordinary failures of earlier ones. */
  method CreateBatch(exp: Expectations, pos: nat, size: nat, create: nat -> CreateOutcome, before: nat)
    returns (errors: nat)
    requires before == CountCreates(create, CreateFailed, pos)
    modifies exp
    ensures errors == CountCreates(create, CreateFailed, pos + size) >= before
    ensures errors > before <==> SlowStart.FailsIn(OrdinaryFailures(create), pos, pos + size)
    ensures exp.add == old(exp.add) - (errors - before) && exp.del == old(exp.del)
  {
    errors := before;
    for i := pos to pos + size
      invariant errors == CountCreates(create, CreateFailed, i) >= before
      invariant errors > before <==> SlowStart.FailsIn(OrdinaryFailures(create), pos, i)
      invariant exp.add == old(exp.add) - (errors - before) && exp.del == old(exp.del)
    {
      var o := create(i);
      if o == CreateFailed {
        assert OrdinaryFailures(create)(i);
        exp.CreationObserved();
        errors := errors + 1;
      }
    }
  }

  method CreateBatches(exp: Expectations, createDiff: nat, create: nat -> CreateOutcome) returns (pos: nat, errors: nat)
    requires exp.add == createDiff
    modifies exp
    ensures pos == SlowStart.Attempted(OrdinaryFailures(create), 0, createDiff, SLOW_START_INITIAL_BATCH_SIZE)
    ensures pos <= createDiff
    ensures errors == CountCreates(create, CreateFailed, pos)
    ensures exp.add == pos - errors && exp.del == old(exp.del)
  {
    ghost var fails := OrdinaryFailures(create);
    SlowStart.AttemptedIsPrefix(fails, 0, createDiff, SLOW_START_INITIAL_BATCH_SIZE);
    pos, errors := 0, 0;
    var batchSize: nat := Min(createDiff, SLOW_START_INITIAL_BATCH_SIZE);
    while createDiff > pos
      invariant pos + batchSize <= createDiff
      invariant createDiff > pos ==> batchSize > 0
      invariant createDiff > pos ==> SlowStart.Attempted(fails, pos, createDiff - pos, batchSize)
                                     == SlowStart.Attempted(fails, 0, createDiff, SLOW_START_INITIAL_BATCH_SIZE)
      invariant createDiff == pos ==> pos == SlowStart.Attempted(fails, 0, createDiff, SLOW_START_INITIAL_BATCH_SIZE)
      invariant errors == CountCreates(create, CreateFailed, pos)
      invariant exp.add == createDiff - errors && exp.del == old(exp.del)
      decreases createDiff - pos
    {
      var errorCount := errors;
      errors := CreateBatch(exp, pos, batchSize, create, errors);
      var skippedPods := createDiff - (batchSize + pos);
      if errorCount < errors && skippedPods > 0 {
        exp.LowerExpectations(skippedPods, 0);
        pos := pos + batchSize;
        return;
      }
      batchSize, pos := Min(2 * batchSize, createDiff - (pos + batchSize)), pos + batchSize;
    }
  }

  method DeleteAll(exp: Expectations, deleteDiff: nat, delete: nat -> DeleteOutcome) returns (errors: nat)
    modifies exp
    ensures errors == CountDeletes(delete, DeleteFailed, deleteDiff)
    ensures exp.add == old(exp.add)
    ensures exp.del == old(exp.del) - CountDeletes(delete, DeleteFailed, deleteDiff)
                       - CountDeletes(delete, PodNotFound, deleteDiff)
  {
    errors := 0;
    for i := 0 to deleteDiff
      invariant errors == CountDeletes(delete, DeleteFailed, i)
      invariant exp.add == old(exp.add)
      invariant exp.del == old(exp.del) - CountDeletes(delete, DeleteFailed, i) - CountDeletes(delete, PodNotFound, i)
    {
      var o := delete(i);
      if o != Deleted {
        exp.DeletionObserved();
        if o != PodNotFound {
          errors := errors + 1;
        }
      }
    }
  }

  lemma {:induction false} CreatesAreCounted(create: nat -> CreateOutcome, o: CreateOutcome, n: nat)
    ensures CountCreates(create, o, n) == |set i: nat | i < n && create(i) == o|
  {
    if n > 0 {
      CreatesAreCounted(create, o, n - 1);
      var front := set i: nat | i < n - 1 && create(i) == o;
      assert (set i: nat | i < n && create(i) == o) == front + if create(n - 1) == o then {n - 1} else {};
    }
  }

  lemma {:induction false} DeletesAreCounted(delete: nat -> DeleteOutcome, o: DeleteOutcome, n: nat)
    ensures CountDeletes(delete, o, n) == |set i: nat | i < n && delete(i) == o|
  {
    if n > 0 {
      DeletesAreCounted(delete, o, n - 1);
      var front := set i: nat | i < n - 1 && delete(i) == o;
      assert (set i: nat | i < n && delete(i) == o) == front + if delete(n - 1) == o then {n - 1} else {};
    }
  }

  lemma {:induction false} CreatesAddUp(create: nat -> CreateOutcome, n: nat)
    ensures CountCreates(create, Created, n) + CountCreates(create, NamespaceTerminating, n)
            + CountCreates(create, CreateFailed, n) == n
  {
    if n > 0 {
      CreatesAddUp(create, n - 1);
    }
  }

  lemma {:induction false} DeletesAddUp(delete: nat -> DeleteOutcome, n: nat)
    ensures CountDeletes(delete, Deleted, n) + CountDeletes(delete, PodNotFound, n)
            + CountDeletes(delete, DeleteFailed, n) == n
  {
    if n > 0 {
      DeletesAddUp(delete, n - 1);
    }
  }

  lemma {:induction false} CreateFailuresCounted(create: nat -> CreateOutcome, n: nat)
    ensures CountCreates(create, CreateFailed, n) == SlowStart.Failures(OrdinaryFailures(create), 0, n)
  {
    if n > 0 {
      CreateFailuresCounted(create, n - 1);
    }
  }

  /** The loop spares the API server: ordinary failures never exceed one more than the creations before them, all of
      which were made in batches without an ordinary failure. */
  lemma FailuresAreDamped(create: nat -> CreateOutcome, count: nat) returns (last: nat)
    ensures var attempted := SlowStart.Attempted(OrdinaryFailures(create), 0, count, SLOW_START_INITIAL_BATCH_SIZE);
            && last <= attempted <= count
            && CountCreates(create, CreateFailed, last) == 0
            && CountCreates(create, CreateFailed, attempted) <= last + 1
            && (attempted < count ==> CountCreates(create, CreateFailed, attempted) > 0)
  {
    var fails := OrdinaryFailures(create);
    var attempted := SlowStart.Attempted(fails, 0, count, SLOW_START_INITIAL_BATCH_SIZE);
    last := SlowStart.SlowStartLaw(count, SLOW_START_INITIAL_BATCH_SIZE, fails);
    SlowStart.AttemptedIsPrefix(fails, 0, count, SLOW_START_INITIAL_BATCH_SIZE);
    CreateFailuresCounted(create, last);
    CreateFailuresCounted(create, attempted);
    SlowStart.FailuresBound(fails, 0, last);
    SlowStart.FailuresBound(fails, 0, attempted);
  }
}
