/** When an AdvancedCronJob should have run last and should run next. Times are integers; the schedule is given by the
    function the cron library offers, the first activation strictly after a moment. */
module CronSchedule {
  import opened Prelude

  type Time = int

  const MAX_MISSED_STARTS: nat := 100

  /** `next` belongs to a fixed set of activations: it moves forward, and everything from t up to the next activation
      has the same next activation. */
  ghost predicate Schedule(next: Time -> Time) {
    && (forall t :: next(t) > t)
    && (forall t, u :: t <= u < next(t) ==> next(u) == next(t))
  }

  ghost predicate Activation(next: Time -> Time, u: Time) { next(u - 1) == u }

  /** The activations after lo and not after hi. */
  ghost function Missed(next: Time -> Time, lo: Time, hi: Time): set<Time> {
    set u | lo < u <= hi && Activation(next, u)
  }

  ghost predicate IsGreatest(m: Time, s: set<Time>) {
    m in s && forall u :: u in s ==> u <= m
  }

  /** The next activation after t is an activation, and there is none in between. */
  lemma NextIsLeast(next: Time -> Time, t: Time)
    requires Schedule(next)
    ensures next(t) > t && Activation(next, next(t))
    ensures forall u :: t < u < next(t) ==> !Activation(next, u)
  {
  }

  /** The scan from `lo` stands at `t`, the last of the `starts` activations counted so far. */
  ghost predicate Scanned(next: Time -> Time, lo: Time, t: Time, starts: nat) {
    && lo <= t
    && |Missed(next, lo, t)| == starts
    && (t == lo || Activation(next, t))
  }

  lemma ScanAdvances(next: Time -> Time, lo: Time, t: Time, starts: nat)
    requires Schedule(next) && Scanned(next, lo, t, starts)
    ensures Scanned(next, lo, next(t), starts + 1)
  {
    NextIsLeast(next, t);
    assert Missed(next, lo, next(t)) == Missed(next, lo, t) + {next(t)};
  }

  /** Where the search for missed runs starts. */
  function Earliest(last: Option<Time>, creation: Time, deadline: Option<int>, now: Time): Time {
    var e := if last.Some? then last.value else creation;
    if deadline.Some? && now - deadline.value > e then now - deadline.value else e
  }

  /** It leaves out nothing but what is not after the last run, or else the creation, and what the deadline excludes. */
  lemma EarliestWindow(last: Option<Time>, creation: Time, deadline: Option<int>, now: Time, u: Time)
    ensures Earliest(last, creation, deadline, now) < u <==>
            && (if last.Some? then last.value else creation) < u
            && (deadline.Some? ==> now - deadline.value < u)
  {
  }

  datatype Answer = TooManyMissed | Runs(missed: Option<Time>, upcoming: Time)

  /** What the caller is to be told: an error exactly if there are more than a hundred activations after `earliest` and
      up to now, otherwise the last of them, if any, and the first one to come. */
  ghost predicate Answers(a: Answer, next: Time -> Time, earliest: Time, now: Time) {
    var missed := Missed(next, earliest, now);
    && (a.TooManyMissed? <==> |missed| > MAX_MISSED_STARTS)
    && (a.Runs? ==> && (a.missed.None? <==> missed == {})
                    && (a.missed.Some? ==> IsGreatest(a.missed.value, missed))
                    && a.upcoming == next(now))
  }

  lemma TooManyScanned(next: Time -> Time, lo: Time, t: Time, hi: Time, starts: nat)
    requires t <= hi && Scanned(next, lo, t, starts) && starts > MAX_MISSED_STARTS
    ensures Answers(TooManyMissed, next, lo, hi)
  {
    SubsetSize(Missed(next, lo, t), Missed(next, lo, hi));
  }

  lemma ScanEnds(next: Time -> Time, lo: Time, t: Time, hi: Time, starts: nat)
    requires Schedule(next) && t <= hi < next(t) && Scanned(next, lo, t, starts) && starts <= MAX_MISSED_STARTS
    ensures Answers(Runs(if t == lo then None else Some(t), next(hi)), next, lo, hi)
  {
    NextIsLeast(next, t);
    assert Missed(next, lo, hi) == Missed(next, lo, t);
    assert t > lo ==> t in Missed(next, lo, t);
  }

  lemma NothingMissed(next: Time -> Time, lo: Time, hi: Time)
    requires hi < lo
    ensures Answers(Runs(None, next(hi)), next, lo, hi)
  {
  }

  /** The search itself. */
  method Scan(next: Time -> Time, earliest: Time, now: Time) returns (a: Answer)
    requires Schedule(next) && earliest <= now
    ensures Answers(a, next, earliest, now)
  {
    var lastMissed: Option<Time> := None;
    var starts := 0;
    var t := next(earliest);
    ghost var reached := earliest;
    assert Missed(next, earliest, reached) == {};
    while t <= now
      invariant reached <= now && t == next(reached)
      invariant lastMissed == if reached == earliest then None else Some(reached)
      invariant starts <= MAX_MISSED_STARTS && Scanned(next, earliest, reached, starts)
      decreases now - t
    {
      ScanAdvances(next, earliest, reached, starts);
      reached := t;
      lastMissed := Some(t);
      starts := starts + 1;
      if starts > MAX_MISSED_STARTS {
        TooManyScanned(next, earliest, reached, now, starts);
        return TooManyMissed;
      }
      t := next(t);
    }
    ScanEnds(next, earliest, reached, now, starts);
    return Runs(lastMissed, next(now));
  }

  /** The last run that was missed, if any, and the next one to come; an error if more than a hundred were missed. */
  method GetNextSchedule(last: Option<Time>, creation: Time, deadline: Option<int>, now: Time, next: Time -> Time)
    returns (a: Answer)
    requires Schedule(next)
    ensures Answers(a, next, Earliest(last, creation, deadline, now), now)
    ensures forall u :: && (if last.Some? then last.value else creation) < u <= now
                        && (deadline.Some? ==> now - deadline.value < u)
                        && Activation(next, u)
                        ==> a.TooManyMissed? || (a.missed.Some? && u <= a.missed.value)
    ensures a.Runs? && a.missed.Some? ==>
              && (if last.Some? then last.value else creation) < a.missed.value <= now
              && (deadline.Some? ==> now - deadline.value < a.missed.value)
              && Activation(next, a.missed.value)
  {
    var earliestTime := if last.Some? then last.value else creation;
    if deadline.Some? {
      var schedulingDeadline := now - deadline.value;
      if schedulingDeadline > earliestTime {
        earliestTime := schedulingDeadline;
      }
    }
    if earliestTime > now {
      NothingMissed(next, earliestTime, now);
      a := Runs(None, next(now));
    } else {
      a := Scan(next, earliestTime, now);
    }
    AnswerCoversMissed(last, creation, deadline, now, next, a);
  }

  /** Said directly: no activation after the last run, or else after the creation, that the deadline admits is later
      than the run returned; that run is one of them; and an error means that there are more than a hundred. */
  lemma AnswerCoversMissed(last: Option<Time>, creation: Time, deadline: Option<int>, now: Time, next: Time -> Time,
                           a: Answer)
    requires Answers(a, next, Earliest(last, creation, deadline, now), now)
    ensures forall u :: && (if last.Some? then last.value else creation) < u <= now
                        && (deadline.Some? ==> now - deadline.value < u)
                        && Activation(next, u)
                        ==> a.TooManyMissed? || (a.missed.Some? && u <= a.missed.value)
    ensures a.Runs? && a.missed.Some? ==>
              && (if last.Some? then last.value else creation) < a.missed.value <= now
              && (deadline.Some? ==> now - deadline.value < a.missed.value)
              && Activation(next, a.missed.value)
    ensures a.TooManyMissed? <==>
            |set u | (if last.Some? then last.value else creation) < u <= now
                     && (deadline.Some? ==> now - deadline.value < u) && Activation(next, u)| > 100
  {
    var e := Earliest(last, creation, deadline, now);
    forall u | u <= now && Activation(next, u)
      ensures e < u <==> && (if last.Some? then last.value else creation) < u
                         && (deadline.Some? ==> now - deadline.value < u)
    {
      EarliestWindow(last, creation, deadline, now, u);
    }
    assert forall u :: e < u <= now && Activation(next, u) ==> u in Missed(next, e, now);
    assert Missed(next, e, now) == set u | (if last.Some? then last.value else creation) < u <= now
                                           && (deadline.Some? ==> now - deadline.value < u) && Activation(next, u);
  }

  predicate TooLate(missed: Time, deadline: Option<int>, now: Time) {
    deadline.Some? && missed + deadline.value < now
  }

  /** The check of the starting deadline that follows can never reject a missed run, whatever the deadline. */
  lemma NeverTooLate(last: Option<Time>, creation: Time, deadline: Option<int>, now: Time, next: Time -> Time, m: Time)
    requires Schedule(next)
    requires IsGreatest(m, Missed(next, Earliest(last, creation, deadline, now), now))
    ensures !TooLate(m, deadline, now)
  {
  }
}
