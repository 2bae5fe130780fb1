/** Sorting by an ordering, used only through its contract: a sorted permutation. */
module Sorting {

  ghost predicate TotalPreorder<T(!new)>(leq: (T, T) -> bool) {
    && (forall a, b :: leq(a, b) || leq(b, a))
    && (forall a, b, c :: leq(a, b) && leq(b, c) ==> leq(a, c))
  }

  ghost predicate SortedBy<T>(xs: seq<T>, leq: (T, T) -> bool) {
    forall i, j :: 0 <= i < j < |xs| ==> leq(xs[i], xs[j])
  }

  lemma InsertedSorted<T(!new)>(xs: seq<T>, x: T, k: nat, leq: (T, T) -> bool)
    requires TotalPreorder(leq) && SortedBy(xs, leq) && k <= |xs|
    requires k > 0 ==> leq(xs[k - 1], x)
    requires forall i :: k <= i < |xs| ==> leq(x, xs[i])
    ensures SortedBy(xs[..k] + [x] + xs[k..], leq)
  {
  }

  lemma InsertedPermutes<T>(xs: seq<T>, x: T, k: nat)
    requires k <= |xs|
    ensures multiset(xs[..k] + [x] + xs[k..]) == multiset(xs) + multiset{x}
  {
    assert xs == xs[..k] + xs[k..];
  }

  method SortBy<T(!new)>(xs: seq<T>, leq: (T, T) -> bool) returns (ys: seq<T>)
    requires TotalPreorder(leq)
    ensures SortedBy(ys, leq)
    ensures multiset(ys) == multiset(xs)
    ensures |ys| == |xs|
  {
    ys := [];
    for i := 0 to |xs|
      invariant |ys| == i
      invariant SortedBy(ys, leq)
      invariant multiset(ys) == multiset(xs[..i])
    {
      var k := |ys|;
      while k > 0 && !leq(ys[k - 1], xs[i])
        invariant 0 <= k <= |ys|
        invariant forall j :: k <= j < |ys| ==> leq(xs[i], ys[j])
      {
        k := k - 1;
      }
      InsertedSorted(ys, xs[i], k, leq);
      InsertedPermutes(ys, xs[i], k);
      ys := ys[..k] + [xs[i]] + ys[k..];
      assert xs[..i + 1] == xs[..i] + [xs[i]];
    }
    assert xs[..|xs|] == xs;
  }

  /** A permutation has the same members. */
  lemma PermutationMembers<T>(xs: seq<T>, ys: seq<T>, x: T)
    requires multiset(xs) == multiset(ys)
    ensures x in xs <==> x in ys
  {
    assert x in xs <==> x in multiset(xs);
    assert x in ys <==> x in multiset(ys);
  }

  /** Every sequence has a sorted permutation. */
  lemma {:induction false} SortedExists<T(!new)>(xs: seq<T>, leq: (T, T) -> bool) returns (ys: seq<T>)
    requires TotalPreorder(leq)
    ensures SortedBy(ys, leq) && multiset(ys) == multiset(xs)
    decreases |xs|
  {
    if xs == [] {
      ys := [];
    } else {
      var n := |xs| - 1;
      var front := SortedExists(xs[..n], leq);
      var k := |front|;
      while k > 0 && !leq(front[k - 1], xs[n])
        invariant 0 <= k <= |front|
        invariant forall j :: k <= j < |front| ==> leq(xs[n], front[j])
      {
        k := k - 1;
      }
      InsertedSorted(front, xs[n], k, leq);
      InsertedPermutes(front, xs[n], k);
      ys := front[..k] + [xs[n]] + front[k..];
      assert xs == xs[..n] + [xs[n]];
    }
  }
}
