/** The status of a PodUnavailableBudget and the two computations that change it: the webhook's
    check-and-decrement and the controller's recalculation. */
module PubStatus {
  import opened Prelude

  type PodName = string
  type Time = int

  // Largest number of records with which a decrement is still allowed.
  const MAX_UNAVAILABLE_POD_SIZE: nat := 2000
  // How long the controller waits for an admitted deletion and for an admitted update, in seconds.
  const DELETION_TIMEOUT: nat := 20
  const UPDATED_DELAY_CHECK_TIME: nat := 10

  datatype Operation = Update | Delete | Evict

  datatype Status = Status(
    unavailableAllowed: int,
    desiredAvailable: int,
    disrupted: map<PodName, Time>,
    unavailable: map<PodName, Time>
  ) {
    predicate Recorded(pod: PodName) {
      pod in unavailable || pod in disrupted
    }

    function Records(): nat {
      |disrupted| + |unavailable|
    }
  }

  /** The status of a budget nobody has written yet. */
  const ZERO_STATUS := Status(0, 0, map[], map[])

  datatype Refusal = BudgetExhausted | TooManyRecords

  function Decremented(st: Status, pod: PodName, op: Operation, now: Time): Result<Status, Refusal> {
    if st.unavailableAllowed <= 0 then
      Err(BudgetExhausted)
    else if st.Records() > MAX_UNAVAILABLE_POD_SIZE then
      Err(TooManyRecords)
    else
      var paid := st.(unavailableAllowed := st.unavailableAllowed - 1);
      Ok(if op.Update? then paid.(unavailable := paid.unavailable[pod := now])
         else paid.(disrupted := paid.disrupted[pod := now]))
  }

  /** A working copy of the budget object, which the webhook changes in place before it tries to store it. */
  class PodUnavailableBudget {
    var status: Status

    constructor (status: Status)
      ensures this.status == status
    {
      this.status := status;
    }

    /** Either refuses and leaves the copy alone, or charges one unit and records the pod. */
    method CheckAndDecrement(pod: PodName, op: Operation, now: Time) returns (refusal: Option<Refusal>)
      modifies this
      ensures match Decremented(old(status), pod, op, now)
              case Ok(st) => refusal == None && status == st
              case Err(e) => refusal == Some(e) && status == old(status)
      ensures refusal == Some(BudgetExhausted) <==> old(status.unavailableAllowed) <= 0
      ensures refusal == Some(TooManyRecords) <==>
              old(status.unavailableAllowed) > 0 && |old(status.disrupted)| + |old(status.unavailable)| > 2000
    {
      if status.unavailableAllowed <= 0 {
        return Some(BudgetExhausted);
      }
      if |status.disrupted| + |status.unavailable| > MAX_UNAVAILABLE_POD_SIZE {
        return Some(TooManyRecords);
      }
      status := status.(unavailableAllowed := status.unavailableAllowed - 1);
      if op == Update {
        status := status.(unavailable := status.unavailable[pod := now]);
      } else {
        status := status.(disrupted := status.disrupted[pod := now]);
      }
      return None;
    }
  }

  /** A charge is refused exactly if nothing is allowed any more or more than 2000 records are held; otherwise the pod
      is recorded with the present time, under updates or under disruptions as the operation is, and no other record
      and no other number changes. */
  lemma ChargeExactly(st: Status, pod: PodName, op: Operation, now: Time)
    ensures var r := Decremented(st, pod, op, now);
            && (r.Err? <==> st.unavailableAllowed <= 0 || |st.disrupted| + |st.unavailable| > 2000)
            && (r.Ok? ==>
                  && r.value.unavailableAllowed == st.unavailableAllowed - 1
                  && r.value.desiredAvailable == st.desiredAvailable
                  && (op == Update ==> && r.value.disrupted == st.disrupted
                                       && RecordedAt(st.unavailable, r.value.unavailable, pod, now))
                  && (op != Update ==> && r.value.unavailable == st.unavailable
                                       && RecordedAt(st.disrupted, r.value.disrupted, pod, now)))
  {
  }

  /** One map is the other with the pod recorded at that time. */
  ghost predicate RecordedAt(before: map<PodName, Time>, after: map<PodName, Time>, pod: PodName, now: Time) {
    && pod in after && after[pod] == now
    && (forall p :: p != pod ==> (p in after <==> p in before))
    && (forall p :: p != pod && p in before ==> after[p] == before[p])
  }

  /** One charge against a budget: which pod, for which operation, when. */
  datatype Charge = Charge(pod: PodName, op: Operation, at: Time)

  /** The charges applied one after the other; None when one of them is refused. */
  function Replay(st: Status, charges: seq<Charge>): Option<Status> {
    if charges == [] then Some(st)
    else
      var n := |charges| - 1;
      match Replay(st, charges[..n])
      case None => None
      case Some(before) =>
        match Decremented(before, charges[n].pod, charges[n].op, charges[n].at)
        case Ok(after) => Some(after)
        case Err(_) => None
  }

  /** The pods charged for an in-place update. */
  function PodsUpdated(charges: seq<Charge>): set<PodName> {
    if charges == [] then {}
    else
      var c := charges[|charges| - 1];
      PodsUpdated(charges[..|charges| - 1]) + (if c.op.Update? then {c.pod} else {})
  }

  /** The pods charged for a deletion or an eviction. */
  function PodsDisrupted(charges: seq<Charge>): set<PodName> {
    if charges == [] then {}
    else
      var c := charges[|charges| - 1];
      PodsDisrupted(charges[..|charges| - 1]) + (if c.op.Update? then {} else {c.pod})
  }

  lemma {:induction false} ChargedPods(charges: seq<Charge>, i: nat)
    requires i < |charges|
    ensures charges[i].pod in if charges[i].op.Update? then PodsUpdated(charges) else PodsDisrupted(charges)
  {
    var n := |charges| - 1;
    if i < n {
      ChargedPods(charges[..n], i);
    }
  }

  /** A series of charges concerns at most as many pods as it has members. */
  lemma {:induction false} ChargedPodsSize(charges: seq<Charge>)
    ensures |PodsUpdated(charges) + PodsDisrupted(charges)| <= |charges|
  {
    if charges != [] {
      var n := |charges| - 1;
      var front := charges[..n];
      ChargedPodsSize(front);
      assert PodsUpdated(charges) + PodsDisrupted(charges)
          == PodsUpdated(front) + PodsDisrupted(front) + {charges[n].pod};
    }
  }

  lemma RecordAdded(m: map<PodName, Time>, pod: PodName, at: Time)
    ensures m[pod := at].Keys == m.Keys + {pod}
    ensures |m[pod := at]| <= |m| + 1
  {
  }

  /** The effect of a charge on a status, for a pod added to the first and one added to the second map. */
  ghost predicate Charged(st: Status, after: Status, updated: set<PodName>, disrupted: set<PodName>) {
    && after.unavailableAllowed == st.unavailableAllowed - 1 >= 0
    && after.desiredAvailable == st.desiredAvailable
    && after.unavailable.Keys == st.unavailable.Keys + updated
    && after.disrupted.Keys == st.disrupted.Keys + disrupted
    && after.Records() <= MAX_UNAVAILABLE_POD_SIZE + 1
  }

  lemma UpdateAccounts(st: Status, pod: PodName, at: Time)
    requires Decremented(st, pod, Update, at).Ok?
    ensures Charged(st, Decremented(st, pod, Update, at).value, {pod}, {})
  {
    RecordAdded(st.unavailable, pod, at);
  }

  lemma DisruptionAccounts(st: Status, pod: PodName, op: Operation, at: Time)
    requires !op.Update? && Decremented(st, pod, op, at).Ok?
    ensures Charged(st, Decremented(st, pod, op, at).value, {}, {pod})
  {
    RecordAdded(st.disrupted, pod, at);
  }

  /** A single charge. */
  lemma DecrementedAccounts(st: Status, pod: PodName, op: Operation, at: Time)
    requires Decremented(st, pod, op, at).Ok?
    ensures Charged(st, Decremented(st, pod, op, at).value, if op.Update? then {pod} else {},
                    if op.Update? then {} else {pod})
  {
    if op.Update? {
      UpdateAccounts(st, pod, at);
    } else {
      DisruptionAccounts(st, pod, op, at);
    }
  }

  /** What any successful series of charges does to the counter: it pays exactly one unit per charge and never
      goes below zero by a charge. The two maps stop growing one entry past the limit. */
  lemma {:induction false} ReplayPays(st: Status, charges: seq<Charge>)
    requires Replay(st, charges).Some?
    ensures var end := Replay(st, charges).value;
            && end.unavailableAllowed == st.unavailableAllowed - |charges|
            && (charges != [] ==> end.unavailableAllowed >= 0)
            && end.desiredAvailable == st.desiredAvailable
            && end.Records() <= Max(st.Records(), MAX_UNAVAILABLE_POD_SIZE + 1)
  {
    if charges != [] {
      var n := |charges| - 1;
      ReplayPays(st, charges[..n]);
      DecrementedAccounts(Replay(st, charges[..n]).value, charges[n].pod, charges[n].op, charges[n].at);
    }
  }

  /** What it does to the records: each pod ends up in the map of its operation and no record is dropped. */
  lemma {:induction false} ReplayRecords(st: Status, charges: seq<Charge>)
    requires Replay(st, charges).Some?
    ensures Replay(st, charges).value.unavailable.Keys == st.unavailable.Keys + PodsUpdated(charges)
    ensures Replay(st, charges).value.disrupted.Keys == st.disrupted.Keys + PodsDisrupted(charges)
  {
    if charges != [] {
      var n := |charges| - 1;
      var front := charges[..n];
      ReplayRecords(st, front);
      DecrementedAccounts(Replay(st, front).value, charges[n].pod, charges[n].op, charges[n].at);
      UnionAssociative(st.unavailable.Keys, PodsUpdated(front), if charges[n].op.Update? then {charges[n].pod} else {});
      UnionAssociative(st.disrupted.Keys, PodsDisrupted(front), if charges[n].op.Update? then {} else {charges[n].pod});
    }
  }

  lemma UnionAssociative<T>(a: set<T>, b: set<T>, c: set<T>)
    ensures (a + b) + c == a + (b + c)
  {
  }

  /** A pod as the controller lists it; `available` means state consistent and ready. */
  datatype PodInfo = PodInfo(name: PodName, active: bool, available: bool)

  /** The names of the active pods of a list. */
  function ActiveNames(pods: seq<PodInfo>): set<PodName> {
    set pod | pod in pods && pod.active :: pod.name
  }

  lemma ActiveNamesExtend(pods: seq<PodInfo>, pod: PodInfo)
    ensures ActiveNames(pods + [pod]) == ActiveNames(pods) + (if pod.active then {pod.name} else {})
  {
  }

  /** The records the controller keeps: still inside their time window, and their pod is still listed active. */
  function Kept(records: map<PodName, Time>, active: set<PodName>, window: nat, now: Time): map<PodName, Time> {
    map p | p in records && p in active && records[p] + window >= now :: records[p]
  }

  lemma KeptExtends(records: map<PodName, Time>, active: set<PodName>, p: PodName, window: nat, now: Time)
    ensures Kept(records, active + {p}, window, now)
            == if p in records && records[p] + window >= now then Kept(records, active, window, now)[p := records[p]]
               else Kept(records, active, window, now)
  {
  }

  method BuildDisruptedAndUnavailablePods(pods: seq<PodInfo>, st: Status, now: Time)
    returns (disrupted: map<PodName, Time>, unavailable: map<PodName, Time>)
    ensures disrupted == Kept(st.disrupted, ActiveNames(pods), DELETION_TIMEOUT, now)
    ensures unavailable == Kept(st.unavailable, ActiveNames(pods), UPDATED_DELAY_CHECK_TIME, now)
    ensures forall p :: p in disrupted <==>
              && p in st.disrupted && st.disrupted[p] + 20 >= now
              && exists pod :: pod in pods && pod.active && pod.name == p
    ensures forall p :: p in unavailable <==>
              && p in st.unavailable && st.unavailable[p] + 10 >= now
              && exists pod :: pod in pods && pod.active && pod.name == p
    ensures forall p :: p in disrupted ==> disrupted[p] == st.disrupted[p]
    ensures forall p :: p in unavailable ==> unavailable[p] == st.unavailable[p]
  {
    disrupted, unavailable := map[], map[];
    ghost var seen: set<PodName> := {};
    for i := 0 to |pods|
      invariant seen == ActiveNames(pods[..i])
      invariant disrupted == Kept(st.disrupted, seen, DELETION_TIMEOUT, now)
      invariant unavailable == Kept(st.unavailable, seen, UPDATED_DELAY_CHECK_TIME, now)
    {
      var pod := pods[i];
      ActiveNamesExtend(pods[..i], pod);
      assert pods[..i + 1] == pods[..i] + [pod];
      if !pod.active {
        continue;
      }
      KeptExtends(st.disrupted, seen, pod.name, DELETION_TIMEOUT, now);
      KeptExtends(st.unavailable, seen, pod.name, UPDATED_DELAY_CHECK_TIME, now);
      seen := seen + {pod.name};
      if pod.name in st.disrupted && st.disrupted[pod.name] + DELETION_TIMEOUT >= now {
        disrupted := disrupted[pod.name := st.disrupted[pod.name]];
      }
      if pod.name in st.unavailable && st.unavailable[pod.name] + UPDATED_DELAY_CHECK_TIME >= now {
        unavailable := unavailable[pod.name := st.unavailable[pod.name]];
      }
    }
    assert pods[..|pods|] == pods;
  }

  /** The pods that count as available: active, available, and not recorded as being disrupted or updated. */
  function AvailablePods(pods: seq<PodInfo>, recorded: set<PodName>): set<PodName> {
    set pod | pod in pods && pod.active && pod.available && pod.name !in recorded :: pod.name
  }

  lemma AvailablePodsExtend(pods: seq<PodInfo>, pod: PodInfo, recorded: set<PodName>)
    ensures AvailablePods(pods + [pod], recorded) == AvailablePods(pods, recorded)
            + (if pod.active && pod.available && pod.name !in recorded then {pod.name} else {})
  {
  }

  ghost predicate DistinctNames(pods: seq<PodInfo>) {
    forall i, j :: 0 <= i < j < |pods| ==> pods[i].name != pods[j].name
  }

  method CountAvailablePods(pods: seq<PodInfo>, recorded: set<PodName>) returns (available: nat)
    requires DistinctNames(pods)
    ensures available == |AvailablePods(pods, recorded)|
  {
    available := 0;
    for i := 0 to |pods|
      invariant available == |AvailablePods(pods[..i], recorded)|
    {
      var pod := pods[i];
      AvailablePodsExtend(pods[..i], pod, recorded);
      assert pods[..i + 1] == pods[..i] + [pod];
      if !pod.active || pod.name in recorded {
        continue;
      }
      if pod.available {
        assert pod.name !in AvailablePods(pods[..i], recorded);
        available := available + 1;
      }
    }
    assert pods[..|pods|] == pods;
  }

  /** The status the controller computes from a copy of the budget and its list of pods. */
  function Recalculated(st: Status, pods: seq<PodInfo>, desired: nat, now: Time): Status {
    var disrupted := Kept(st.disrupted, ActiveNames(pods), DELETION_TIMEOUT, now);
    var unavailable := Kept(st.unavailable, ActiveNames(pods), UPDATED_DELAY_CHECK_TIME, now);
    Status(Max(0, |AvailablePods(pods, disrupted.Keys + unavailable.Keys)| - desired), desired, disrupted, unavailable)
  }

  /** The published number is what the counted pods exceed the desired number by, or zero; counted is each active and
      available pod of the list without a record that is kept. */
  lemma PublishedExactly(st: Status, pods: seq<PodInfo>, desired: nat, now: Time)
    ensures var next := Recalculated(st, pods, desired, now);
            var counted := |set pod | pod in pods && pod.active && pod.available && pod.name !in next.disrupted
                                      && pod.name !in next.unavailable :: pod.name|;
            && next.desiredAvailable == desired
            && next.unavailableAllowed == (if counted > desired then counted - desired else 0)
  {
    var next := Recalculated(st, pods, desired, now);
    assert AvailablePods(pods, next.disrupted.Keys + next.unavailable.Keys)
        == set pod | pod in pods && pod.active && pod.available && pod.name !in next.disrupted
                     && pod.name !in next.unavailable :: pod.name;
  }

  /** And a record is kept, with its time, exactly if its pod is listed active and it is no older than twenty seconds,
      if it is about a disruption, or ten, if it is about an update. */
  lemma KeptExactly(st: Status, pods: seq<PodInfo>, desired: nat, now: Time, p: PodName)
    ensures var next := Recalculated(st, pods, desired, now);
            var listed := exists pod :: pod in pods && pod.active && pod.name == p;
            && (p in next.disrupted <==> p in st.disrupted && listed && now - st.disrupted[p] <= 20)
            && (p in next.unavailable <==> p in st.unavailable && listed && now - st.unavailable[p] <= 10)
            && (p in next.disrupted ==> next.disrupted[p] == st.disrupted[p])
            && (p in next.unavailable ==> next.unavailable[p] == st.unavailable[p])
  {
    assert p in ActiveNames(pods) <==> exists pod :: pod in pods && pod.active && pod.name == p;
  }

  /** A recalculation only ever drops records. */
  lemma RecalculatedShrinksRecords(st: Status, pods: seq<PodInfo>, desired: nat, now: Time)
    ensures Recalculated(st, pods, desired, now).Records() <= st.Records()
  {
    var r := Recalculated(st, pods, desired, now);
    SubsetSize(r.disrupted.Keys, st.disrupted.Keys);
    SubsetSize(r.unavailable.Keys, st.unavailable.Keys);
    assert |r.disrupted| == |r.disrupted.Keys| && |st.disrupted| == |st.disrupted.Keys|;
    assert |r.unavailable| == |r.unavailable.Keys| && |st.unavailable| == |st.unavailable.Keys|;
  }

  /** One run of the controller's recalculation on its working copy. */
  method SyncStatus(st: Status, pods: seq<PodInfo>, desired: nat, now: Time) returns (next: Status)
    requires DistinctNames(pods)
    ensures next == Recalculated(st, pods, desired, now)
  {
    var disrupted, unavailable := BuildDisruptedAndUnavailablePods(pods, st, now);
    var available := CountAvailablePods(pods, disrupted.Keys + unavailable.Keys);
    var allowed := available - desired;
    if allowed <= 0 {
      allowed := 0;
    }
    next := Status(allowed, desired, disrupted, unavailable);
  }
}
