/** How many pods a partition keeps on the old revision, and how many a CloneSet therefore expects to be updated. */
module PartitionReplicas {
  import opened Prelude

  datatype IntOrString = Int(n: int) | Str(text: string)

  datatype Error = NotAPercentage | NotANumber

  const HUNDRED_PERCENT: string := "100%"

  /** Reads a decimal number; a parameter, because the number format belongs to the language's library. */
  type Parser = string -> Option<real>

  ghost predicate ReadsHundred(parse: Parser) { parse("100") == Some(100.0) }

  function Ceil(x: real): int { -(-x).Floor }

  predicate IsPercentage(text: string) { text != "" && text[|text| - 1] == '%' }

  /** The percentage a string stands for, if it stands for one. */
  function Percentage(parse: Parser, text: string): Result<real, Error> {
    if !IsPercentage(text) then Err(NotAPercentage)
    else
      var v := parse(text[..|text| - 1]);
      if v.None? then Err(NotANumber) else Ok(v.value)
  }

  function Part(v: real, total: int): real { v * (total as real) / 100.0 }

  function ScaledValue(parse: Parser, p: IntOrString, total: int, roundUp: bool): Result<int, Error> {
    match p
    case Int(n) => Ok(n)
    case Str(text) =>
      var v := Percentage(parse, text);
      if v.Err? then Err(v.error)
      else
        Ok(if roundUp then Ceil(Part(v.value, total)) else Part(v.value, total).Floor)
  }

  function PartitionValue(parse: Parser, partition: Option<IntOrString>, replicas: Option<int>): Result<int, Error> {
    if partition.None? then Ok(0)
    else
      var r := if replicas.Some? then replicas.value else 1;
      var scaled := ScaledValue(parse, partition.value, r, true);
      if scaled.Err? then scaled
      else
        var v := if r > 1 && scaled.value == r && partition.value.Str? && partition.value.text != HUNDRED_PERCENT
                 then r - 1 else scaled.value;
        Ok(Max(Min(v, r), 0))
  }

  // ---------------------------------------------------------------- rounding

  lemma CeilBounds(x: real)
    ensures (Ceil(x) - 1) as real < x <= Ceil(x) as real
  {
  }

  lemma CeilMonotone(x: real, y: real)
    requires x <= y
    ensures Ceil(x) <= Ceil(y)
  {
  }

  lemma CeilAbove(x: real, n: int)
    ensures Ceil(x) > n <==> x > n as real
  {
  }

  lemma ProductMonotone(a: real, b: real, c: real)
    requires a <= b && c >= 0.0
    ensures a * c <= b * c
    ensures a < b && c > 0.0 ==> a * c < b * c
  {
  }

  /** The share of r that a percentage is, rounded up. */
  function Share(v: real, r: int): int { Ceil(Part(v, r)) }

  lemma ShareMonotone(v: real, w: real, r: int, q: int)
    requires v <= w && 0 <= r <= q && (r == q || w >= 0.0)
    ensures Share(v, r) <= Share(w, q)
  {
    ProductMonotone(v, w, r as real);
    assert Part(v, r) <= Part(w, r);
    if r < q {
      ProductMonotone(r as real, q as real, w);
      assert (r as real) * w == w * (r as real) && (q as real) * w == w * (q as real);
      assert Part(w, r) <= Part(w, q);
    }
    CeilMonotone(Part(v, r), Part(w, q));
  }

  lemma PartAgainst(v: real, w: real, r: int)
    requires r >= 0
    ensures v <= w ==> Part(v, r) <= Part(w, r)
    ensures v > w && r > 0 ==> Part(v, r) > Part(w, r)
  {
    if v <= w {
      ProductMonotone(v, w, r as real);
    } else {
      ProductMonotone(w, v, r as real);
    }
  }

  lemma ShareAbove(v: real, w: real, r: int, n: int)
    requires r >= 0 && Part(w, r) == n as real
    ensures v <= w ==> Share(v, r) <= n
    ensures v > w && r > 0 ==> Share(v, r) > n
  {
    PartAgainst(v, w, r);
    CeilAbove(Part(v, r), n);
  }

  lemma ShareBounds(v: real, r: int)
    requires r >= 0
    ensures v <= 0.0 ==> Share(v, r) <= 0
    ensures v > 0.0 && r > 0 ==> Share(v, r) >= 1
    ensures v <= 100.0 ==> Share(v, r) <= r
    ensures v == 100.0 ==> Share(v, r) == r
    ensures v > 100.0 && r > 0 ==> Share(v, r) > r
  {
    ShareAbove(v, 0.0, r, 0);
    ShareAbove(v, 100.0, r, r);
  }

  /** What a percentage comes to once the last pod below 100% has been set free. */
  function Settled(text: string, v: real, r: int): int {
    var s := Share(v, r);
    Max(Min(if r > 1 && s == r && text != HUNDRED_PERCENT then r - 1 else s, r), 0)
  }

  // ---------------------------------------------------------------- the partition

  /** No partition keeps nothing back; a number keeps back that many pods, within what there is; a missing number of
      replicas counts as one. */
  lemma PlainPartition(parse: Parser, n: int, r: nat)
    ensures PartitionValue(parse, None, Some(r)) == Ok(0)
    ensures n <= 0 ==> PartitionValue(parse, Some(Int(n)), Some(r)) == Ok(0)
    ensures 0 <= n <= r ==> PartitionValue(parse, Some(Int(n)), Some(r)) == Ok(n)
    ensures n >= r ==> PartitionValue(parse, Some(Int(n)), Some(r)) == Ok(r)
    ensures forall p :: PartitionValue(parse, p, None) == PartitionValue(parse, p, Some(1))
  {
  }

  /** A percentage keeps back the least number of pods that is no smaller share - or all but one where that would be all
      of several, unless written "100%". */
  lemma PercentagePartition(parse: Parser, text: string, r: nat)
    requires text != "" && text[|text| - 1] == '%' && parse(text[..|text| - 1]).Some?
    ensures var v := parse(text[..|text| - 1]).value;
            var kept := PartitionValue(parse, Some(Str(text)), Some(r)).value;
            && (v <= 0.0 ==> kept == 0)
            && (v > 100.0 ==> kept == r)
            && (0.0 < v <= 100.0 ==>
                  var exact := v * (r as real) / 100.0;
                  if exact > (r - 1) as real && r > 1 && text != "100%" then kept == r - 1
                  else (kept as real) - 1.0 < exact <= kept as real)
  {
    var v := parse(text[..|text| - 1]).value;
    ValueOfPercentage(parse, text, r);
    ShareBounds(v, r);
    CeilBounds(Part(v, r));
    CeilAbove(Part(v, r), r - 1);
    if r == 0 {
      assert Part(v, r) == 0.0;
    }
  }

  /** An error exactly for a string that is not a number followed by a percent sign. */
  lemma PartitionErrors(parse: Parser, partition: Option<IntOrString>, replicas: Option<int>)
    ensures PartitionValue(parse, partition, replicas).Err? <==>
            && partition.Some? && partition.value.Str?
            && var text := partition.value.text;
            !(IsPercentage(text) && parse(text[..|text| - 1]).Some?)
  {
  }

  lemma PartitionInRange(parse: Parser, partition: Option<IntOrString>, r: int)
    requires r >= 0 && PartitionValue(parse, partition, Some(r)).Ok?
    ensures 0 <= PartitionValue(parse, partition, Some(r)).value <= r
  {
  }

  /** Any percentage strictly between 0 and 100 keeps a pod back and lets a pod go, if there are two. */
  lemma PartialPartition(parse: Parser, text: string, r: int)
    requires ReadsHundred(parse) && r > 1 && Percentage(parse, text).Ok?
    requires 0.0 < Percentage(parse, text).value < 100.0
    ensures 1 <= PartitionValue(parse, Some(Str(text)), Some(r)).value <= r - 1
  {
    ShareBounds(Percentage(parse, text).value, r);
    HundredReadsHundred(parse);
  }

  lemma HundredReadsHundred(parse: Parser)
    requires ReadsHundred(parse)
    ensures Percentage(parse, HUNDRED_PERCENT) == Ok(100.0)
  {
    assert HUNDRED_PERCENT[..3] == "100";
  }

  lemma ValueOfPercentage(parse: Parser, text: string, r: int)
    requires Percentage(parse, text).Ok?
    ensures PartitionValue(parse, Some(Str(text)), Some(r)) == Ok(Settled(text, Percentage(parse, text).value, r))
  {
  }

  /** A larger percentage never keeps back fewer pods, with one exception, which it always is: one hundred per cent
      written in another way is taken for less than "100%". */
  lemma PartitionMonotoneInPercentage(parse: Parser, t: string, u: string, r: int)
    requires ReadsHundred(parse) && r >= 0 && Percentage(parse, t).Ok? && Percentage(parse, u).Ok?
    requires Percentage(parse, t).value <= Percentage(parse, u).value
    ensures PartitionValue(parse, Some(Str(t)), Some(r)).value <= PartitionValue(parse, Some(Str(u)), Some(r)).value
            <==> !(r > 1 && t == HUNDRED_PERCENT && u != HUNDRED_PERCENT && Percentage(parse, u).value == 100.0)
  {
    var v, w := Percentage(parse, t).value, Percentage(parse, u).value;
    HundredReadsHundred(parse);
    ValueOfPercentage(parse, t, r);
    ValueOfPercentage(parse, u, r);
    ShareMonotone(v, w, r, r);
    ShareBounds(v, r);
    ShareBounds(w, r);
  }

  /** More replicas never mean fewer pods kept back. */
  lemma PartitionMonotoneInReplicas(parse: Parser, partition: Option<IntOrString>, r: int, q: int)
    requires ReadsHundred(parse) && 0 <= r <= q && PartitionValue(parse, partition, Some(r)).Ok?
    ensures PartitionValue(parse, partition, Some(q)).Ok?
    ensures PartitionValue(parse, partition, Some(r)).value <= PartitionValue(parse, partition, Some(q)).value
  {
    if partition.Some? && partition.value.Str? {
      var text := partition.value.text;
      var v := Percentage(parse, text).value;
      HundredReadsHundred(parse);
      ValueOfPercentage(parse, text, r);
      ValueOfPercentage(parse, text, q);
      ShareBounds(v, r);
      ShareBounds(v, q);
      if v > 0.0 {
        ShareMonotone(v, v, r, q);
        if q > r > 1 && v <= 100.0 {
          ShareStep(v, r, q);
        }
      }
    }
  }

  /** Below one hundred per cent the share grows by no more than the replicas do. */
  lemma ShareStep(v: real, r: int, q: int)
    requires 0 <= r <= q && v <= 100.0
    ensures Share(v, q) - q <= Share(v, r) - r
  {
    var x, y := Part(v, r), Part(v, q);
    ProductMonotone(v, 100.0, (q - r) as real);
    assert v * (q as real) == v * (r as real) + v * ((q - r) as real);
    assert y <= x + (q - r) as real;
    CeilAbove(y, Ceil(x) + (q - r));
    CeilBounds(x);
  }

  /** A share written as "100.0%" instead of "100%" lets one pod of two go. */
  lemma HundredWrittenOtherwise(parse: Parser)
    requires ReadsHundred(parse) && parse("100.0") == Some(100.0)
    ensures PartitionValue(parse, Some(Str("100%")), Some(2)) == Ok(2)
    ensures PartitionValue(parse, Some(Str("100.0%")), Some(2)) == Ok(1)
  {
    HundredReadsHundred(parse);
    assert "100.0%"[..5] == "100.0";
    ValueOfPercentage(parse, "100%", 2);
    ValueOfPercentage(parse, "100.0%", 2);
    ShareBounds(100.0, 2);
  }

  // ---------------------------------------------------------------- the status of a CloneSet

  datatype Pod = Pod(revision: string, ready: bool, available: bool)

  /** The aspects of a pod that the status counts; the last three are about pods of the update revision. */
  datatype Aspect = Ready | Available | Updated | UpdatedReady | UpdatedAvailable

  predicate Has(pod: Pod, update: string, a: Aspect) {
    match a
    case Ready => pod.ready
    case Available => pod.available
    case Updated => pod.revision == update
    case UpdatedReady => pod.revision == update && pod.ready
    case UpdatedAvailable => pod.revision == update && pod.available
  }

  function Count(pods: seq<Pod>, update: string, a: Aspect): (n: nat)
    ensures n <= |pods|
  {
    if pods == [] then 0
    else Count(pods[..|pods| - 1], update, a) + (if Has(pods[|pods| - 1], update, a) then 1 else 0)
  }

  lemma {:induction false} CountAll(pods: seq<Pod>, update: string, a: Aspect)
    ensures Count(pods, update, a) == |pods| <==> forall i :: 0 <= i < |pods| ==> Has(pods[i], update, a)
  {
    if pods != [] {
      CountAll(pods[..|pods| - 1], update, a);
    }
  }

  /** The counts, one by one. */
  lemma {:induction false} CountsAreExact(pods: seq<Pod>, update: string)
    ensures Count(pods, update, Ready) == |set i | 0 <= i < |pods| && pods[i].ready|
    ensures Count(pods, update, Available) == |set i | 0 <= i < |pods| && pods[i].available|
    ensures Count(pods, update, Updated) == |set i | 0 <= i < |pods| && pods[i].revision == update|
    ensures Count(pods, update, UpdatedReady)
            == |set i | 0 <= i < |pods| && pods[i].revision == update && pods[i].ready|
    ensures Count(pods, update, UpdatedAvailable)
            == |set i | 0 <= i < |pods| && pods[i].revision == update && pods[i].available|
  {
    CountIsSize(pods, update, Ready);
    CountIsSize(pods, update, Available);
    CountIsSize(pods, update, Updated);
    CountIsSize(pods, update, UpdatedReady);
    CountIsSize(pods, update, UpdatedAvailable);
    assert WithAspect(pods, update, Ready) == set i | 0 <= i < |pods| && pods[i].ready;
    assert WithAspect(pods, update, Available) == set i | 0 <= i < |pods| && pods[i].available;
    assert WithAspect(pods, update, Updated) == set i | 0 <= i < |pods| && pods[i].revision == update;
    assert WithAspect(pods, update, UpdatedReady)
        == set i | 0 <= i < |pods| && pods[i].revision == update && pods[i].ready;
    assert WithAspect(pods, update, UpdatedAvailable)
        == set i | 0 <= i < |pods| && pods[i].revision == update && pods[i].available;
  }

  ghost function WithAspect(pods: seq<Pod>, update: string, a: Aspect): set<int> {
    set i | 0 <= i < |pods| && Has(pods[i], update, a)
  }

  lemma {:induction false} CountIsSize(pods: seq<Pod>, update: string, a: Aspect)
    ensures Count(pods, update, a) == |WithAspect(pods, update, a)|
  {
    if pods != [] {
      var n := |pods| - 1;
      CountIsSize(pods[..n], update, a);
      assert WithAspect(pods, update, a)
          == WithAspect(pods[..n], update, a) + if Has(pods[n], update, a) then {n} else {};
    }
  }

  class CloneSetStatus {
    var currentRevision: string
    var updateRevision: string
    var replicas: nat
    var readyReplicas: nat
    var availableReplicas: nat
    var updatedReplicas: nat
    var updatedReadyReplicas: nat
    var updatedAvailableReplicas: nat
    var expectedUpdatedReplicas: int

    constructor (current: string, update: string)
      ensures currentRevision == current && updateRevision == update && Fresh()
    {
      currentRevision, updateRevision := current, update;
      replicas, readyReplicas, availableReplicas := 0, 0, 0;
      updatedReplicas, updatedReadyReplicas, updatedAvailableReplicas := 0, 0, 0;
      expectedUpdatedReplicas := 0;
    }

    predicate Fresh()
      reads this
    {
      && replicas == 0 && readyReplicas == 0 && availableReplicas == 0
      && updatedReplicas == 0 && updatedReadyReplicas == 0 && updatedAvailableReplicas == 0
      && expectedUpdatedReplicas == 0
    }

    ghost predicate Counts(pods: seq<Pod>)
      reads this
    {
      && replicas == |pods|
      && readyReplicas == Count(pods, updateRevision, Ready)
      && availableReplicas == Count(pods, updateRevision, Available)
      && updatedReplicas == Count(pods, updateRevision, Updated)
      && updatedReadyReplicas == Count(pods, updateRevision, UpdatedReady)
      && updatedAvailableReplicas == Count(pods, updateRevision, UpdatedAvailable)
    }

    /** The update revision becomes the current one exactly when every pod carries it and none is missing. */
    method CalculateStatus(parse: Parser, partition: Option<IntOrString>, wanted: nat, pods: seq<Pod>)
      requires Fresh()
      modifies this
      ensures updateRevision == old(updateRevision) && Counts(pods)
      ensures currentRevision
              == if |pods| == wanted && (forall i :: 0 <= i < |pods| ==> pods[i].revision == updateRevision)
                 then updateRevision else old(currentRevision)
      ensures var v := PartitionValue(parse, partition, Some(wanted));
              expectedUpdatedReplicas == if v.Ok? then wanted - v.value else 0
    {
      for i := 0 to |pods|
        invariant Counts(pods[..i])
        invariant updateRevision == old(updateRevision) && currentRevision == old(currentRevision)
        invariant expectedUpdatedReplicas == 0
      {
        assert pods[..i + 1][..i] == pods[..i];
        AddPod(pods[i]);
      }
      assert pods[..|pods|] == pods;
      CountAll(pods, updateRevision, Updated);
      if updatedReplicas == replicas && replicas == wanted {
        currentRevision := updateRevision;
      }
      var v := PartitionValue(parse, partition, Some(wanted));
      if v.Ok? {
        expectedUpdatedReplicas := wanted - v.value;
      }
    }

    method AddPod(pod: Pod)
      modifies this
      ensures unchanged(`currentRevision) && unchanged(`updateRevision) && unchanged(`expectedUpdatedReplicas)
      ensures replicas == old(replicas) + 1
      ensures readyReplicas == old(readyReplicas) + if pod.ready then 1 else 0
      ensures availableReplicas == old(availableReplicas) + if pod.available then 1 else 0
      ensures updatedReplicas == old(updatedReplicas) + if pod.revision == updateRevision then 1 else 0
      ensures updatedReadyReplicas
              == old(updatedReadyReplicas) + if pod.revision == updateRevision && pod.ready then 1 else 0
      ensures updatedAvailableReplicas
              == old(updatedAvailableReplicas) + if pod.revision == updateRevision && pod.available then 1 else 0
    {
      replicas := replicas + 1;
      if pod.ready {
        readyReplicas := readyReplicas + 1;
      }
      if pod.available {
        availableReplicas := availableReplicas + 1;
      }
      if pod.revision == updateRevision {
        updatedReplicas := updatedReplicas + 1;
      }
      if pod.revision == updateRevision && pod.ready {
        updatedReadyReplicas := updatedReadyReplicas + 1;
      }
      if pod.revision == updateRevision && pod.available {
        updatedAvailableReplicas := updatedAvailableReplicas + 1;
      }
    }
  }

  predicate BelowHundred(parse: Parser, partition: Option<IntOrString>) {
    && partition.Some? && partition.value.Str?
    && var v := Percentage(parse, partition.value.text);
    v.Ok? && v.value < 100.0
  }

  /** The expected number of updated pods lies between none and all; below one hundred per cent of two or more it is
      at least one. */
  lemma ExpectedUpdatedInRange(parse: Parser, partition: Option<IntOrString>, wanted: nat)
    requires ReadsHundred(parse) && PartitionValue(parse, partition, Some(wanted)).Ok?
    ensures var expected := wanted - PartitionValue(parse, partition, Some(wanted)).value;
            && 0 <= expected <= wanted
            && (wanted > 1 && BelowHundred(parse, partition) ==> expected >= 1)
  {
    PartitionInRange(parse, partition, wanted);
    if wanted > 1 && BelowHundred(parse, partition) {
      var text := partition.value.text;
      ValueOfPercentage(parse, text, wanted);
      ShareBounds(Percentage(parse, text).value, wanted);
      HundredReadsHundred(parse);
    }
  }
}
