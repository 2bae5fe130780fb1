/** Which daemon pods a DaemonSet keeps, deletes and creates on one node. */
module DaemonPlan {
  import opened Prelude
  import opened Sorting

  /** A daemon pod. `scheduled` means its node name is set; `available` means ready for long enough. */
  datatype Pod = Pod(
    name: string, scheduled: bool, created: int,
    terminating: bool, failed: bool, preDeleting: bool,
    hash: string, ready: bool, available: bool
  ) {
    predicate Running() { !terminating && !failed && !preDeleting }
  }

  // ---------------------------------------------------------------------------------------------------------
  // The order in which pods are sorted.

  predicate NameLess(a: string, b: string) {
    if b == "" then false
    else if a == "" then true
    else if a[0] == b[0] then NameLess(a[1..], b[1..])
    else a[0] < b[0]
  }

  /** Scheduled pods first, then by creation time, then by name. */
  predicate Less(a: Pod, b: Pod) {
    if a.scheduled && !b.scheduled then true
    else if !a.scheduled && b.scheduled then false
    else if a.created == b.created then NameLess(a.name, b.name)
    else a.created < b.created
  }

  lemma {:induction false} NameLessTotal(a: string, b: string)
    ensures !(NameLess(a, b) && NameLess(b, a))
    ensures NameLess(a, b) || NameLess(b, a) || a == b
    ensures a == b ==> !NameLess(a, b)
    decreases |a|
  {
    if a != "" && b != "" && a[0] == b[0] {
      NameLessTotal(a[1..], b[1..]);
      assert a == [a[0]] + a[1..] && b == [b[0]] + b[1..];
    }
  }

  lemma {:induction false} NameLessTransitive(a: string, b: string, c: string)
    requires NameLess(a, b) && NameLess(b, c)
    ensures NameLess(a, c)
    decreases |a|
  {
    if a != "" && a[0] == b[0] && b[0] == c[0] {
      NameLessTransitive(a[1..], b[1..], c[1..]);
    }
  }

  /** Less is a strict total order on pods with different names. */
  lemma LessIsStrictTotalOrder(a: Pod, b: Pod, c: Pod)
    ensures !Less(a, a)
    ensures Less(a, b) && Less(b, c) ==> Less(a, c)
    ensures a.name != b.name ==> Less(a, b) != Less(b, a)
  {
    NameLessTotal(a.name, a.name);
    NameLessTotal(a.name, b.name);
    if NameLess(a.name, b.name) && NameLess(b.name, c.name) {
      NameLessTransitive(a.name, b.name, c.name);
    }
  }

  /** The names agree up to position i, and there the first one ends or has the smaller character. */
  ghost predicate DecidedAt(a: string, b: string, i: nat) {
    i <= |a| && i < |b| && a[..i] == b[..i] && (i == |a| || a[i] < b[i])
  }

  lemma AgreeBefore(a: string, b: string, i: nat)
    requires DecidedAt(a, b, i)
    ensures i > 0 ==> a != "" && b != "" && a[0] == b[0]
  {
    if i > 0 {
      assert a[..i][0] == b[..i][0];
    }
  }

  /** Names are compared at the first difference, and a proper prefix comes first. */
  lemma {:induction false} NameLessIff(a: string, b: string)
    ensures NameLess(a, b) <==> exists i: nat :: DecidedAt(a, b, i)
    decreases |a|
  {
    if a == "" || b == "" || a[0] != b[0] {
      assert NameLess(a, b) ==> DecidedAt(a, b, 0);
      forall i: nat | DecidedAt(a, b, i)
        ensures i > 0 ==> a != "" && b != "" && a[0] == b[0]
      {
        AgreeBefore(a, b, i);
      }
    } else {
      var c, d := a[1..], b[1..];
      NameLessIff(c, d);
      if i: nat :| DecidedAt(c, d, i) {
        assert a[..i + 1] == [a[0]] + c[..i] && b[..i + 1] == [b[0]] + d[..i];
        assert DecidedAt(a, b, i + 1);
      }
      if i: nat :| DecidedAt(a, b, i) {
        assert i > 0;
        assert c[..i - 1] == a[..i][1..] && d[..i - 1] == b[..i][1..];
        assert DecidedAt(c, d, i - 1);
      }
    }
  }

  /** What the order means: p is not after q. */
  ghost predicate NoLater(p: Pod, q: Pod) {
    && (q.scheduled ==> p.scheduled)
    && (p.scheduled == q.scheduled ==> p.created <= q.created)
    && (p.scheduled == q.scheduled && p.created == q.created ==>
          p.name == q.name || exists i: nat :: DecidedAt(p.name, q.name, i))
  }

  lemma LessIsEarlier(p: Pod, q: Pod)
    ensures Less(p, q) ==> NoLater(p, q)
    ensures p.name != q.name && NoLater(p, q) ==> Less(p, q)
  {
    NameLessIff(p.name, q.name);
  }

  function NotAfter(): (Pod, Pod) -> bool { (a, b) => !Less(b, a) }

  lemma NotAfterIsTotal()
    ensures TotalPreorder(NotAfter())
  {
    forall a: Pod, b: Pod
      ensures NotAfter()(a, b) || NotAfter()(b, a)
    {
      NameLessTotal(a.name, b.name);
    }
    forall a: Pod, b: Pod, c: Pod | NotAfter()(a, b) && NotAfter()(b, c)
      ensures NotAfter()(a, c)
    {
      NameLessTotal(a.name, b.name);
      NameLessTotal(b.name, c.name);
      NameLessTotal(a.name, c.name);
      if NameLess(a.name, b.name) && NameLess(b.name, c.name) {
        NameLessTransitive(a.name, b.name, c.name);
      }
    }
  }

  // ---------------------------------------------------------------------------------------------------------
  // What is to be kept, said on sets of running pods.

  ghost predicate IsLeast(p: Pod, pods: set<Pod>) {
    p in pods && forall q :: q in pods && q != p ==> Less(p, q)
  }

  ghost function Current(pods: set<Pod>, hash: string): set<Pod> { set p | p in pods && p.hash == hash }

  ghost function Outdated(pods: set<Pod>, hash: string): set<Pod> { set p | p in pods && p.hash != hash }

  /** Two pods may stay only while an outdated ready one waits for a current one that is not available yet. */
  ghost predicate MayCoexist(newPod: Pod, oldPod: Pod) {
    oldPod.ready && !newPod.available
  }

  /** The pods to keep out of the running ones, without and with surge. */
  ghost predicate Keeps(running: set<Pod>, surge: bool, hash: string, kept: set<Pod>) {
    if running == {} then kept == {}
    else if !surge then exists p :: IsLeast(p, running) && kept == {p}
    else if Outdated(running, hash) == {} then exists p :: IsLeast(p, Current(running, hash)) && kept == {p}
    else if Current(running, hash) == {} then exists p :: IsLeast(p, Outdated(running, hash)) && kept == {p}
    else exists n, o ::
      IsLeast(n, Current(running, hash)) && IsLeast(o, Outdated(running, hash))
      && kept == if MayCoexist(n, o) then {n, o} else {n}
  }

  /** There is only one least pod. */
  lemma LeastUnique(p: Pod, q: Pod, pods: set<Pod>)
    requires IsLeast(p, pods) && IsLeast(q, pods)
    ensures p == q
  {
    LessIsStrictTotalOrder(p, q, p);
  }

  /** What is kept is the oldest there is: without surge of all running pods, with surge of those with the same kind of
      hash. */
  lemma KeptAreOldest(running: set<Pod>, surge: bool, hash: string, kept: set<Pod>, p: Pod, q: Pod)
    requires Keeps(running, surge, hash, kept) && p in kept && q in running
    requires surge ==> ((p.hash == hash) <==> (q.hash == hash))
    ensures (q.scheduled ==> p.scheduled) && (p.scheduled == q.scheduled ==> p.created <= q.created)
    ensures p.scheduled == q.scheduled && p.created == q.created ==>
              p.name == q.name || exists i: nat :: DecidedAt(p.name, q.name, i)
  {
    if p != q {
      LessIsEarlier(p, q);
    }
  }

  /** With surge a current pod is always kept if one runs; the oldest outdated one is kept next to it exactly while it
      is ready and the current one is not available yet, and alone if no current one runs. */
  lemma SurgeKeepsOutdatedIff(running: set<Pod>, hash: string, kept: set<Pod>, o: Pod)
    requires Keeps(running, true, hash, kept) && o in running && o.hash != hash
    requires forall q :: q in running && q.hash != hash ==> q == o || Less(o, q)
    ensures (exists n :: n in running && n.hash == hash) ==> exists n :: n in kept && n.hash == hash
    ensures o in kept <==> forall n :: n in kept && n.hash == hash ==> o.ready && !n.available
  {
    assert o in Outdated(running, hash) && IsLeast(o, Outdated(running, hash));
    forall q | IsLeast(q, Outdated(running, hash))
      ensures q == o
    {
      LeastUnique(q, o, Outdated(running, hash));
    }
    if n :| n in running && n.hash == hash {
      assert n in Current(running, hash);
    }
  }

  /** What surge promises: at most two pods, never none, and two only for a good reason. */
  lemma KeptPods(running: set<Pod>, surge: bool, hash: string, kept: set<Pod>)
    requires Keeps(running, surge, hash, kept)
    ensures kept <= running
    ensures running != {} ==> kept != {}
    ensures |kept| <= if surge then 2 else 1
    ensures |kept| == 2 ==> exists n, o :: kept == {n, o} && MayCoexist(n, o)
                                 && IsLeast(n, Current(running, hash)) && IsLeast(o, Outdated(running, hash))
  {
  }

  /** A node with no pod left over is a fixed point: planning again with nothing changed keeps the same pods. */
  lemma ReplanningKeepsAll(running: set<Pod>, surge: bool, hash: string, kept: set<Pod>, again: set<Pod>)
    requires Keeps(running, surge, hash, kept) && Keeps(kept, surge, hash, again)
    ensures again == kept
  {
  }

  // ---------------------------------------------------------------------------------------------------------
  // The plan for one node.

  ghost predicate UniqueNames(pods: seq<Pod>) {
    forall i, j :: 0 <= i < j < |pods| ==> pods[i].name != pods[j].name
  }

  /** The running pods of a list, in order. */
  function RunningPods(pods: seq<Pod>): seq<Pod> {
    if pods == [] then []
    else
      var n := |pods| - 1;
      RunningPods(pods[..n]) + if pods[n].Running() then [pods[n]] else []
  }

  /** To be deleted in any case: about to be deleted, or failed and not held back by the backoff. */
  predicate Doomed(pods: seq<Pod>, inBackoff: nat -> bool, i: nat)
    requires i < |pods|
  {
    !pods[i].terminating && if pods[i].failed then !inBackoff(i) else pods[i].preDeleting
  }

  function DoomedNames(pods: seq<Pod>, inBackoff: nat -> bool): seq<string> {
    if pods == [] then []
    else
      var n := |pods| - 1;
      DoomedNames(pods[..n], inBackoff) + if Doomed(pods, inBackoff, n) then [pods[n].name] else []
  }

  lemma {:induction false} RunningMembers(pods: seq<Pod>)
    requires UniqueNames(pods)
    ensures forall p :: p in RunningPods(pods) <==> p in pods && p.Running()
    ensures UniqueNames(RunningPods(pods))
  {
    if pods != [] {
      var n := |pods| - 1;
      var front := RunningPods(pods[..n]);
      RunningMembers(pods[..n]);
      assert pods == pods[..n] + [pods[n]];
      forall i | 0 <= i < |front|
        ensures front[i].name != pods[n].name
      {
        assert front[i] in front;
      }
    }
  }

  lemma {:induction false} DoomedMembers(pods: seq<Pod>, inBackoff: nat -> bool)
    requires UniqueNames(pods)
    ensures forall i :: 0 <= i < |pods| && Doomed(pods, inBackoff, i) ==> pods[i].name in DoomedNames(pods, inBackoff)
    ensures forall x :: x in DoomedNames(pods, inBackoff) ==>
              exists i :: 0 <= i < |pods| && Doomed(pods, inBackoff, i) && pods[i].name == x
    ensures Distinct(DoomedNames(pods, inBackoff))
  {
    if pods != [] {
      var n := |pods| - 1;
      var front := DoomedNames(pods[..n], inBackoff);
      DoomedMembers(pods[..n], inBackoff);
      forall i | 0 <= i < n && Doomed(pods, inBackoff, i)
        ensures pods[i].name in front
      {
        assert Doomed(pods[..n], inBackoff, i);
      }
      forall x | x in front
        ensures exists i :: 0 <= i < n && Doomed(pods, inBackoff, i) && pods[i].name == x
      {
        var i :| 0 <= i < n && Doomed(pods[..n], inBackoff, i) && pods[..n][i].name == x;
        assert Doomed(pods, inBackoff, i);
      }
      if Doomed(pods, inBackoff, n) {
        DistinctAppend(front, [pods[n].name]);
      }
    }
  }

  method SplitPods(pods: seq<Pod>, inBackoff: nat -> bool) returns (running: seq<Pod>, doomed: seq<string>)
    ensures running == RunningPods(pods)
    ensures doomed == DoomedNames(pods, inBackoff)
  {
    running, doomed := [], [];
    for i := 0 to |pods|
      invariant running == RunningPods(pods[..i])
      invariant doomed == DoomedNames(pods[..i], inBackoff)
    {
      var pod := pods[i];
      assert pods[..i + 1][..i] == pods[..i];
      if pod.terminating {
        continue;
      }
      if pod.failed {
        if inBackoff(i) {
          continue;
        }
        doomed := doomed + [pod.name];
      } else if pod.preDeleting {
        doomed := doomed + [pod.name];
      } else {
        running := running + [pod];
      }
    }
    assert pods[..|pods|] == pods;
  }

  /** The running pods that are not named for deletion. */
  ghost function Remaining(running: seq<Pod>, deleted: seq<string>): set<Pod> {
    set p | p in running && p.name !in deleted
  }

  /** Names of running pods, each at most once. */
  ghost predicate NamesOf(running: seq<Pod>, names: seq<string>) {
    Distinct(names) && forall x :: x in names ==> exists p :: p in running && p.name == x
  }

  ghost predicate StrictlySorted(pods: seq<Pod>) {
    forall i, j :: 0 <= i < j < |pods| ==> Less(pods[i], pods[j])
  }

  /** Sorting pods with different names. */
  method SortPods(pods: seq<Pod>) returns (sorted: seq<Pod>)
    requires UniqueNames(pods)
    ensures StrictlySorted(sorted) && UniqueNames(sorted)
    ensures |sorted| == |pods| && Elements(sorted) == Elements(pods)
  {
    NotAfterIsTotal();
    sorted := SortBy(pods, NotAfter());
    SortedPermutation(pods, sorted);
  }

  lemma SortedPermutation(pods: seq<Pod>, sorted: seq<Pod>)
    requires UniqueNames(pods) && SortedBy(sorted, NotAfter())
    requires multiset(sorted) == multiset(pods) && |sorted| == |pods|
    ensures StrictlySorted(sorted) && UniqueNames(sorted)
    ensures Elements(sorted) == Elements(pods)
  {
    forall p
      ensures p in sorted <==> p in pods
    {
      PermutationMembers(sorted, pods, p);
    }
    assert Elements(sorted) == Elements(pods);
    DistinctSize(pods);
    SizeMeansDistinct(sorted);
    forall i, j | 0 <= i < j < |sorted|
      ensures sorted[i].name != sorted[j].name && Less(sorted[i], sorted[j])
    {
      assert sorted[i] in sorted && sorted[j] in sorted && sorted[i] != sorted[j];
      assert sorted[i] in pods && sorted[j] in pods;
      LessIsStrictTotalOrder(sorted[i], sorted[j], sorted[i]);
    }
  }

  lemma {:induction false} SizeMeansDistinct(s: seq<Pod>)
    requires |Elements(s)| == |s|
    ensures Distinct(s)
  {
    if s != [] {
      var n := |s| - 1;
      assert s == s[..n] + [s[n]];
      assert Elements(s) == Elements(s[..n]) + {s[n]};
      ElementsSize(s[..n]);
      assert s[n] !in Elements(s[..n]);
      SizeMeansDistinct(s[..n]);
    }
  }

  /** Without surge: keep the oldest running pod. */
  method PruneToOldest(running: seq<Pod>, hash: string) returns (surplus: seq<string>)
    requires UniqueNames(running)
    ensures NamesOf(running, surplus)
    ensures Keeps(Elements(running), false, hash, Remaining(running, surplus))
  {
    surplus := [];
    if |running| <= 1 {
      assert Remaining(running, surplus) == Elements(running);
      if |running| == 1 {
        assert IsLeast(running[0], Elements(running)) && Elements(running) == {running[0]};
      }
      return;
    }
    var sorted := SortPods(running);
    for i := 1 to |sorted|
      invariant |surplus| == i - 1 && forall j :: 0 <= j < i - 1 ==> surplus[j] == sorted[j + 1].name
    {
      surplus := surplus + [sorted[i].name];
    }
    OldestRemains(running, sorted, surplus, hash);
  }

  lemma OldestRemains(running: seq<Pod>, sorted: seq<Pod>, surplus: seq<string>, hash: string)
    requires sorted != [] && StrictlySorted(sorted) && UniqueNames(sorted) && Elements(sorted) == Elements(running)
    requires |surplus| == |sorted| - 1 && forall j :: 0 <= j < |sorted| - 1 ==> surplus[j] == sorted[j + 1].name
    ensures NamesOf(running, surplus)
    ensures Keeps(Elements(running), false, hash, Remaining(running, surplus))
  {
    forall x | x in surplus
      ensures exists p :: p in running && p.name == x
    {
      var j :| 0 <= j < |surplus| && surplus[j] == x;
      assert sorted[j + 1] in Elements(sorted) && sorted[j + 1] in running;
    }
    forall p | p in running
      ensures p.name !in surplus <==> p == sorted[0]
    {
      assert p in Elements(sorted);
      var k :| 0 <= k < |sorted| && sorted[k] == p;
      if k > 0 {
        assert surplus[k - 1] == p.name;
      }
    }
    assert sorted[0] in Elements(sorted) && sorted[0] in running;
    assert Remaining(running, surplus) == {sorted[0]};
    assert IsLeast(sorted[0], Elements(running)) by {
      forall q | q in Elements(running) && q != sorted[0]
        ensures Less(sorted[0], q)
      {
        var k :| 0 <= k < |sorted| && sorted[k] == q;
      }
    }
  }

  /** The candidate is the least of the pods, if there are any. */
  ghost predicate LeastIfAny(pods: set<Pod>, candidate: Option<Pod>) {
    if candidate.Some? then IsLeast(candidate.value, pods) else pods == {}
  }

  /** The names of all pods but the two candidates, each once. */
  ghost predicate NamesRest(sorted: seq<Pod>, newPod: Option<Pod>, oldPod: Option<Pod>, surplus: seq<string>) {
    && Distinct(surplus)
    && (forall x :: x in surplus <==> exists p :: p in sorted && p.name == x && Some(p) != newPod && Some(p) != oldPod)
  }

  /** What the surge loop has done with a sorted prefix: the first pod of either kind is remembered, the names of
      all others are listed. */
  ghost predicate Surged(sorted: seq<Pod>, hash: string, newPod: Option<Pod>, oldPod: Option<Pod>,
                         surplus: seq<string>)
  {
    && LeastIfAny(Current(Elements(sorted), hash), newPod)
    && LeastIfAny(Outdated(Elements(sorted), hash), oldPod)
    && NamesRest(sorted, newPod, oldPod, surplus)
  }

  lemma LaterPod(sorted: seq<Pod>, pod: Pod, p: Pod)
    requires StrictlySorted(sorted + [pod]) && UniqueNames(sorted + [pod]) && p in sorted
    ensures p.name != pod.name && Less(p, pod)
  {
    var all := sorted + [pod];
    var i :| 0 <= i < |sorted| && sorted[i] == p;
    assert all[i] == p && all[|sorted|] == pod;
  }

  lemma CandidatesExtend(sorted: seq<Pod>, pod: Pod, hash: string, newPod: Option<Pod>, oldPod: Option<Pod>)
    requires forall p :: p in sorted ==> Less(p, pod)
    requires LeastIfAny(Current(Elements(sorted), hash), newPod) && LeastIfAny(Outdated(Elements(sorted), hash), oldPod)
    ensures LeastIfAny(Current(Elements(sorted + [pod]), hash),
                       if pod.hash == hash && newPod.None? then Some(pod) else newPod)
    ensures LeastIfAny(Outdated(Elements(sorted + [pod]), hash),
                       if pod.hash != hash && oldPod.None? then Some(pod) else oldPod)
  {
    var was, all := Elements(sorted), Elements(sorted + [pod]);
    assert all == was + {pod};
    assert Current(all, hash) == Current(was, hash) + if pod.hash == hash then {pod} else {};
    assert Outdated(all, hash) == Outdated(was, hash) + if pod.hash != hash then {pod} else {};
  }

  lemma RestExtends(sorted: seq<Pod>, pod: Pod, newPod: Option<Pod>, oldPod: Option<Pod>, surplus: seq<string>)
    requires forall p :: p in sorted ==> p.name != pod.name
    requires NamesRest(sorted, newPod, oldPod, surplus) && Some(pod) != newPod && Some(pod) != oldPod
    ensures NamesRest(sorted + [pod], newPod, oldPod, surplus + [pod.name])
    ensures newPod.None? ==> NamesRest(sorted + [pod], Some(pod), oldPod, surplus)
    ensures oldPod.None? ==> NamesRest(sorted + [pod], newPod, Some(pod), surplus)
  {
    var all := sorted + [pod];
    forall x
      ensures (exists p :: p in all && p.name == x && Some(p) != newPod && Some(p) != oldPod)
              <==> x in surplus || x == pod.name
    {
      if x == pod.name {
        assert pod in all;
      }
      if x in surplus {
        var p :| p in sorted && p.name == x && Some(p) != newPod && Some(p) != oldPod;
        assert p in all;
      }
    }
    assert pod.name !in surplus;
    DistinctAppend(surplus, [pod.name]);
    assert forall p :: p in all && p != pod <==> p in sorted;
  }

  lemma SurgedExtends(sorted: seq<Pod>, pod: Pod, hash: string, newPod: Option<Pod>, oldPod: Option<Pod>,
                      surplus: seq<string>)
    requires StrictlySorted(sorted + [pod]) && UniqueNames(sorted + [pod])
    requires Surged(sorted, hash, newPod, oldPod, surplus)
    ensures pod.hash == hash && newPod.None? ==> Surged(sorted + [pod], hash, Some(pod), oldPod, surplus)
    ensures pod.hash != hash && oldPod.None? ==> Surged(sorted + [pod], hash, newPod, Some(pod), surplus)
    ensures (pod.hash == hash && newPod.Some?) || (pod.hash != hash && oldPod.Some?)
            ==> Surged(sorted + [pod], hash, newPod, oldPod, surplus + [pod.name])
  {
    forall p | p in sorted
      ensures p.name != pod.name && Less(p, pod)
    {
      LaterPod(sorted, pod, p);
    }
    CandidatesExtend(sorted, pod, hash, newPod, oldPod);
    RestExtends(sorted, pod, newPod, oldPod, surplus);
  }

  /** With surge: keep the oldest current pod, and next to it the oldest outdated one as long as they may coexist. */
  method PruneSurge(running: seq<Pod>, hash: string) returns (surplus: seq<string>)
    requires UniqueNames(running) && |running| > 1
    ensures NamesOf(running, surplus)
    ensures Keeps(Elements(running), true, hash, Remaining(running, surplus))
  {
    var sorted := SortPods(running);
    var newPod: Option<Pod> := None;
    var oldPod: Option<Pod> := None;
    surplus := [];
    for i := 0 to |sorted|
      invariant Surged(sorted[..i], hash, newPod, oldPod, surplus)
    {
      var pod := sorted[i];
      assert sorted[..i + 1] == sorted[..i] + [pod];
      SurgedExtends(sorted[..i], pod, hash, newPod, oldPod, surplus);
      if pod.hash == hash {
        if newPod == None {
          newPod := Some(pod);
          continue;
        }
      } else {
        if oldPod == None {
          oldPod := Some(pod);
          continue;
        }
      }
      surplus := surplus + [pod.name];
    }
    assert sorted[..|sorted|] == sorted;
    ghost var listed := surplus;
    if newPod.Some? && oldPod.Some? {
      if !oldPod.value.ready {
        surplus := surplus + [oldPod.value.name];
      } else if newPod.value.available {
        surplus := surplus + [oldPod.value.name];
      }
    }
    SurgeKeeps(running, sorted, hash, newPod, oldPod, listed, surplus);
  }

  /** The bookkeeping of the surge loop amounts to keeping the right pods. */
  lemma SurgeKeeps(running: seq<Pod>, sorted: seq<Pod>, hash: string, newPod: Option<Pod>, oldPod: Option<Pod>,
                   listed: seq<string>, surplus: seq<string>)
    requires UniqueNames(sorted) && Elements(sorted) == Elements(running) && sorted != []
    requires Surged(sorted, hash, newPod, oldPod, listed)
    requires surplus == if newPod.Some? && oldPod.Some? && !MayCoexist(newPod.value, oldPod.value)
                        then listed + [oldPod.value.name] else listed
    ensures NamesOf(running, surplus)
    ensures Keeps(Elements(running), true, hash, Remaining(running, surplus))
  {
    forall p: Pod
      ensures p in sorted <==> p in running
    {
      assert p in Elements(sorted) <==> p in Elements(running);
    }
    ListedNames(sorted, hash, newPod, oldPod, listed);
    assert sorted[0] in Elements(sorted);
    var rem := Remaining(running, surplus);
    if newPod.Some? && oldPod.Some? {
      assert oldPod.value in sorted && newPod.value in sorted && newPod.value.hash == hash && oldPod.value.hash != hash;
      assert newPod.value.name != oldPod.value.name by {
        NamesDiffer(sorted, newPod.value, oldPod.value);
      }
      assert oldPod.value.name !in listed && newPod.value.name !in listed;
      assert rem == if MayCoexist(newPod.value, oldPod.value) then {newPod.value, oldPod.value} else {newPod.value} by {
        forall p | p in running && p != newPod.value && p != oldPod.value
          ensures p.name in listed
        {
        }
      }
    } else if newPod.Some? {
      assert rem == {newPod.value};
    } else {
      assert oldPod.Some? by {
        assert sorted[0] in Current(Elements(sorted), hash) + Outdated(Elements(sorted), hash);
      }
      assert rem == {oldPod.value};
    }
  }

  lemma NamesDiffer(pods: seq<Pod>, p: Pod, q: Pod)
    requires UniqueNames(pods) && p in pods && q in pods && p != q
    ensures p.name != q.name
  {
  }

  /** The listed names are exactly those of the pods not remembered. */
  lemma ListedNames(sorted: seq<Pod>, hash: string, newPod: Option<Pod>, oldPod: Option<Pod>, listed: seq<string>)
    requires UniqueNames(sorted) && Surged(sorted, hash, newPod, oldPod, listed)
    ensures forall p :: p in sorted ==> (p.name in listed <==> Some(p) != newPod && Some(p) != oldPod)
  {
  }

  /** Names of pods of the list that are not terminating, each at most once. */
  ghost predicate NamesAlive(pods: seq<Pod>, names: seq<string>) {
    && Distinct(names)
    && forall x :: x in names ==> exists i :: 0 <= i < |pods| && pods[i].name == x && !pods[i].terminating
  }

  method DeleteAllOnNode(pods: seq<Pod>) returns (names: seq<string>)
    requires UniqueNames(pods)
    ensures NamesAlive(pods, names)
    ensures forall i :: 0 <= i < |pods| && !pods[i].terminating ==> pods[i].name in names
  {
    names := [];
    for i := 0 to |pods|
      invariant Distinct(names)
      invariant forall x :: x in names ==> exists j :: 0 <= j < i && pods[j].name == x && !pods[j].terminating
      invariant forall j :: 0 <= j < i && !pods[j].terminating ==> pods[j].name in names
    {
      if pods[i].terminating {
        continue;
      }
      DistinctAppend(names, [pods[i].name]);
      names := names + [pods[i].name];
    }
  }

  /** The whole plan: the nodes to create a pod on (this one or none) and the names of the pods to delete.
      `exists_` says whether the node has an entry in the map from nodes to daemon pods. */
  method PodsShouldBeOnNode(node: string, shouldRun: bool, shouldContinueRunning: bool, exists_: bool, pods: seq<Pod>,
                            surge: bool, hash: string, inBackoff: nat -> bool)
    returns (nodesNeedingDaemonPods: seq<string>, podsToDelete: seq<string>)
    requires UniqueNames(pods) && (!exists_ ==> pods == [])
    ensures NamesAlive(pods, podsToDelete)
    ensures nodesNeedingDaemonPods
            == if shouldRun && (!exists_ || (shouldContinueRunning && surge && RunningPods(pods) == []))
               then [node] else []
    ensures shouldContinueRunning && !(shouldRun && !exists_) ==>
              Keeps(Elements(RunningPods(pods)), surge, hash, Remaining(RunningPods(pods), podsToDelete))
    ensures forall i :: 0 <= i < |pods| && Doomed(pods, inBackoff, i) ==> pods[i].name in podsToDelete
    ensures forall i :: 0 <= i < |pods| && !pods[i].terminating && shouldContinueRunning
                        && ((pods[i].failed && !inBackoff(i)) || (!pods[i].failed && pods[i].preDeleting))
                        ==> pods[i].name in podsToDelete
    ensures forall i :: 0 <= i < |pods| && shouldContinueRunning
                        && (pods[i].terminating || (pods[i].failed && inBackoff(i)))
                        ==> pods[i].name !in podsToDelete
    ensures nodesNeedingDaemonPods != [] && exists_ ==>
              forall i :: 0 <= i < |pods| ==> pods[i].terminating || pods[i].failed || pods[i].preDeleting
    ensures shouldContinueRunning ==>
              forall x :: x in podsToDelete ==>
                exists i :: 0 <= i < |pods| && pods[i].name == x && (Doomed(pods, inBackoff, i) || pods[i].Running())
    ensures !shouldContinueRunning && exists_ ==>
              forall i :: 0 <= i < |pods| && !pods[i].terminating ==> pods[i].name in podsToDelete
  {
    nodesNeedingDaemonPods, podsToDelete := [], [];
    if shouldRun && !exists_ {
      nodesNeedingDaemonPods := [node];
    } else if shouldContinueRunning {
      var running, doomed := SplitPods(pods, inBackoff);
      RunningMembers(pods);
      var surplus: seq<string>;
      if !surge {
        surplus := PruneToOldest(running, hash);
      } else if |running| <= 1 {
        surplus := [];
        if |running| == 0 && shouldRun {
          nodesNeedingDaemonPods := [node];
        }
        FewPodsKept(running, hash);
      } else {
        surplus := PruneSurge(running, hash);
      }
      podsToDelete := doomed + surplus;
      DoomedMembers(pods, inBackoff);
      PlanCombines(pods, inBackoff, surplus);
      assert running == [] ==> forall i :: 0 <= i < |pods| ==> pods[i] !in running;
    } else if exists_ {
      podsToDelete := DeleteAllOnNode(pods);
    }
  }

  lemma FewPodsKept(running: seq<Pod>, hash: string)
    requires |running| <= 1
    ensures NamesOf(running, [])
    ensures Keeps(Elements(running), true, hash, Remaining(running, []))
  {
    assert Remaining(running, []) == Elements(running);
    if |running| == 1 {
      var p := running[0];
      assert Elements(running) == {p};
      assert Current({p}, hash) == if p.hash == hash then {p} else {};
      assert Outdated({p}, hash) == if p.hash == hash then {} else {p};
      assert IsLeast(p, {p});
    }
  }

  /** Running pods are not doomed, and different pods have different names. */
  lemma DoomedApart(pods: seq<Pod>, inBackoff: nat -> bool, q: Pod)
    requires UniqueNames(pods) && q in RunningPods(pods)
    ensures q.name !in DoomedNames(pods, inBackoff)
  {
    RunningMembers(pods);
    DoomedMembers(pods, inBackoff);
    var j :| 0 <= j < |pods| && pods[j] == q;
    assert forall i :: 0 <= i < |pods| && pods[i].name == q.name ==> i == j;
  }

  lemma SurplusRuns(pods: seq<Pod>, surplus: seq<string>)
    requires UniqueNames(pods) && NamesOf(RunningPods(pods), surplus)
    ensures forall x :: x in surplus ==> exists i :: 0 <= i < |pods| && pods[i].name == x && pods[i].Running()
  {
    RunningMembers(pods);
    forall x | x in surplus
      ensures exists i :: 0 <= i < |pods| && pods[i].name == x && pods[i].Running()
    {
      var q :| q in RunningPods(pods) && q.name == x;
      var i :| 0 <= i < |pods| && pods[i] == q;
    }
  }

  /** Deletions of running pods and of doomed ones do not meet. */
  lemma PlanCombines(pods: seq<Pod>, inBackoff: nat -> bool, surplus: seq<string>)
    requires UniqueNames(pods) && NamesOf(RunningPods(pods), surplus)
    ensures var all := DoomedNames(pods, inBackoff) + surplus;
            && NamesAlive(pods, all)
            && Remaining(RunningPods(pods), all) == Remaining(RunningPods(pods), surplus)
            && forall x :: x in all ==>
                 exists i :: 0 <= i < |pods| && pods[i].name == x && (Doomed(pods, inBackoff, i) || pods[i].Running())
  {
    DoomedMembers(pods, inBackoff);
    SurplusRuns(pods, surplus);
    forall q | q in RunningPods(pods)
      ensures q.name !in DoomedNames(pods, inBackoff)
    {
      DoomedApart(pods, inBackoff, q);
    }
    DistinctAppend(DoomedNames(pods, inBackoff), surplus);
  }
}
