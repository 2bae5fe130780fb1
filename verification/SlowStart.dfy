/** Slow start: calls are made in batches that double as long as nothing fails. The same loop is written three times
    in the repository (here, in the BroadcastJob and in the DaemonSet controller); all three are proved against
    the function Attempted. */
module SlowStart {
  import opened Prelude

  /** Does one of the calls lo..hi-1 fail? */
  ghost predicate FailsIn(fails: nat -> bool, lo: nat, hi: nat) {
    exists i: nat :: lo <= i < hi && fails(i)
  }

  /** The number of failing calls among lo..hi-1. */
  function Failures(fails: nat -> bool, lo: nat, hi: nat): nat
    decreases hi - lo
  {
    if hi <= lo then 0
    else Failures(fails, lo, hi - 1) + (if fails(hi - 1) then 1 else 0)
  }

  /** With `start` calls behind it, `remaining` ahead and the given size of the next batch, the number of calls
      made when slow start stops: after the first batch with a failure, or at the end. */
  ghost function Attempted(fails: nat -> bool, start: nat, remaining: nat, batch: nat): nat
    requires batch > 0
    decreases remaining
  {
    var b := Min(batch, remaining);
    if remaining == 0 then start
    else if FailsIn(fails, start, start + b) then start + b
    else Attempted(fails, start + b, remaining - b, 2 * b)
  }

  lemma {:induction false} FailuresBound(fails: nat -> bool, lo: nat, hi: nat)
    requires lo <= hi
    ensures Failures(fails, lo, hi) <= hi - lo
    ensures Failures(fails, lo, hi) > 0 <==> FailsIn(fails, lo, hi)
    decreases hi - lo
  {
    if lo < hi {
      FailuresBound(fails, lo, hi - 1);
      assert fails(hi - 1) ==> FailsIn(fails, lo, hi);
      if FailsIn(fails, lo, hi - 1) {
        assert FailsIn(fails, lo, hi);
      }
    }
  }

  lemma {:induction false} FailuresSplit(fails: nat -> bool, lo: nat, mid: nat, hi: nat)
    requires lo <= mid <= hi
    ensures Failures(fails, lo, hi) == Failures(fails, lo, mid) + Failures(fails, mid, hi)
    decreases hi - mid
  {
    if mid < hi {
      FailuresSplit(fails, lo, mid, hi - 1);
    }
  }

  /** The calls made are a prefix, and a proper one only because something failed. */
  lemma {:induction false} AttemptedIsPrefix(fails: nat -> bool, start: nat, remaining: nat, batch: nat)
    requires batch > 0
    ensures start <= Attempted(fails, start, remaining, batch) <= start + remaining
    ensures remaining > 0 ==> Attempted(fails, start, remaining, batch) > start
    ensures Attempted(fails, start, remaining, batch) < start + remaining
            ==> FailsIn(fails, start, Attempted(fails, start, remaining, batch))
    decreases remaining
  {
    var b := Min(batch, remaining);
    if remaining > 0 && !FailsIn(fails, start, start + b) {
      AttemptedIsPrefix(fails, start + b, remaining - b, 2 * b);
    }
  }

  /** Failures are damped: they all lie in the last batch, which is no larger than everything that succeeded before
      it plus the initial batch. */
  lemma {:induction false} AttemptedDampsFailures(fails: nat -> bool, origin: nat, start: nat, remaining: nat,
                                                  batch: nat, initial: nat)
    returns (last: nat)
    requires batch > 0 && origin <= start
    requires batch <= (start - origin) + initial
    requires !FailsIn(fails, origin, start)
    ensures start <= last <= Attempted(fails, start, remaining, batch)
    ensures !FailsIn(fails, origin, last)
    ensures Attempted(fails, start, remaining, batch) - last <= (last - origin) + initial
    ensures Failures(fails, origin, Attempted(fails, start, remaining, batch)) <= (last - origin) + initial
    decreases remaining
  {
    var b := Min(batch, remaining);
    if remaining == 0 {
      last := start;
      FailuresBound(fails, origin, start);
    } else if FailsIn(fails, start, start + b) {
      last := start;
      FailuresSplit(fails, origin, start, start + b);
      FailuresBound(fails, origin, start);
      FailuresBound(fails, start, start + b);
    } else {
      last := AttemptedDampsFailures(fails, origin, start + b, remaining - b, 2 * b, initial);
    }
  }

  // ---------------------------------------------------------------------------------------------------------
  // Where slow start can stop.

  /** The end of the i-th batch when batches double from `initial`: initial, 3 * initial, 7 * initial, ... */
  function BatchEnd(initial: nat, i: nat): nat {
    if i == 0 then 0 else 2 * BatchEnd(initial, i - 1) + initial
  }

  lemma {:induction false} StopsAtBatchEndFrom(fails: nat -> bool, count: nat, initial: nat, j: nat) returns (i: nat)
    requires initial > 0 && BatchEnd(initial, j) < count && !FailsIn(fails, 0, BatchEnd(initial, j))
    ensures var stop := Attempted(fails, BatchEnd(initial, j), count - BatchEnd(initial, j),
                                  BatchEnd(initial, j) + initial);
            && i > j && stop == Min(BatchEnd(initial, i), count) && BatchEnd(initial, i - 1) < count
            && !FailsIn(fails, 0, BatchEnd(initial, i - 1))
            && (stop == count || FailsIn(fails, 0, stop))
    decreases count - BatchEnd(initial, j)
  {
    var start := BatchEnd(initial, j);
    var b := Min(start + initial, count - start);
    i := j + 1;
    if FailsIn(fails, start, start + b) {
      assert FailsIn(fails, 0, start + b);
    } else if BatchEnd(initial, j + 1) < count {
      i := StopsAtBatchEndFrom(fails, count, initial, j + 1);
    }
  }

  /** The number of calls made: the end of the first batch with a failure in it, or everything. */
  lemma StopsAtBatchEnd(fails: nat -> bool, count: nat, initial: nat) returns (i: nat)
    requires initial > 0 && count > 0
    ensures var stop := Attempted(fails, 0, count, initial);
            && i > 0 && stop == Min(BatchEnd(initial, i), count) && BatchEnd(initial, i - 1) < count
            && !FailsIn(fails, 0, BatchEnd(initial, i - 1))
            && (stop == count || FailsIn(fails, 0, stop))
  {
    i := StopsAtBatchEndFrom(fails, count, initial, 0);
  }

  /** Failures are counted once each. */
  lemma {:induction false} FailuresAreCounted(fails: nat -> bool, lo: nat, hi: nat)
    ensures Failures(fails, lo, hi) == |set i: nat | lo <= i < hi && fails(i)|
    decreases hi - lo
  {
    if lo < hi {
      FailuresAreCounted(fails, lo, hi - 1);
      var front := set i: nat | lo <= i < hi - 1 && fails(i);
      assert (set i: nat | lo <= i < hi && fails(i)) == front + if fails(hi - 1) then {hi - 1} else {};
    }
  }

  /** One batch: the calls begin..begin+size-1. They run concurrently; only their outcomes matter, so `fails` says which
      indices return an error. */
  method CallBatch(begin: nat, size: nat, fails: nat -> bool) returns (errors: nat)
    ensures errors == Failures(fails, begin, begin + size) <= size
    ensures errors > 0 <==> FailsIn(fails, begin, begin + size)
  {
    errors := 0;
    for i := 0 to size
      invariant errors == Failures(fails, begin, begin + i) <= i
    {
      if fails(begin + i) {
        errors := errors + 1;
      }
    }
    FailuresBound(fails, begin, begin + size);
  }

  /** The library function. `called` is the number of calls made: the indices called are exactly 0..called-1, each
      once. */
  method SlowStartBatch(count: nat, initialBatchSize: nat, fails: nat -> bool)
    returns (successes: nat, failed: bool, called: nat)
    requires initialBatchSize > 0
    ensures called == Attempted(fails, 0, count, initialBatchSize)
    ensures called <= count
    ensures successes + Failures(fails, 0, called) == called
    ensures !failed <==> successes == count
  {
    var remaining := count;
    successes, failed, called := 0, false, 0;
    var batchSize := Min(remaining, initialBatchSize);
    ghost var total := Attempted(fails, 0, count, initialBatchSize);
    while batchSize > 0
      invariant 0 <= batchSize <= remaining
      invariant called + remaining == count
      invariant batchSize == 0 ==> remaining == 0
      invariant batchSize > 0 ==> Attempted(fails, called, remaining, batchSize) == total
      invariant batchSize == 0 ==> called == total
      invariant Failures(fails, 0, called) == 0 && successes == called
      decreases remaining
    {
      var errors := CallBatch(called, batchSize, fails);
      FailuresSplit(fails, 0, called, called + batchSize);
      called := called + batchSize;
      successes := successes + (batchSize - errors);
      if errors > 0 {
        failed := true;
        return;
      }
      remaining := remaining - batchSize;
      batchSize := Min(2 * batchSize, remaining);
    }
  }

  /** For every failure pattern: no error exactly when all calls succeed, and failures never exceed the initial
      batch plus the calls of the earlier batches, all of which succeeded. */
  lemma SlowStartLaw(count: nat, initialBatchSize: nat, fails: nat -> bool) returns (last: nat)
    requires initialBatchSize > 0
    ensures last <= Attempted(fails, 0, count, initialBatchSize)
    ensures !FailsIn(fails, 0, last)
    ensures Failures(fails, 0, Attempted(fails, 0, count, initialBatchSize)) <= last + initialBatchSize
    ensures !FailsIn(fails, 0, count) ==> Attempted(fails, 0, count, initialBatchSize) == count
    ensures FailsIn(fails, 0, count) ==> FailsIn(fails, 0, Attempted(fails, 0, count, initialBatchSize))
  {
    last := AttemptedDampsFailures(fails, 0, 0, count, initialBatchSize, initialBatchSize);
    AttemptedIsPrefix(fails, 0, count, initialBatchSize);
  }
}
