/** The revision history of a CloneSet: finding, rolling back to and creating the revision of the current template, and
    truncating what is no longer in use. */
module RevisionHistory {
  import opened Prelude

  type Data = string
  type Hash = string

  /** The hash label is fixed when the revision is first built; the name may carry a later probe of the same data. */
  datatype Revision = Revision(data: Data, hashLabel: Hash, number: int)

  /** Revisions by the hash part of their name. */
  type Store = map<Hash, Revision>

  /** The hash of a template and a probe, and the number a label reads as, if it reads as one. */
  datatype Hashing = Hashing(hash: (Data, nat) -> Hash, numeral: Hash -> Option<int>)

  const DEFAULT_LIMIT: nat := 10

  predicate LabelsClash(h: Hashing, a: Hash, b: Hash) {
    h.numeral(a).Some? && h.numeral(b).Some? && h.numeral(a).value != h.numeral(b).value
  }

  predicate EqualRevision(h: Hashing, a: Revision, b: Revision) {
    !LabelsClash(h, a.hashLabel, b.hashLabel) && a.data == b.data
  }

  ghost predicate IsListing(store: Store, order: seq<Hash>) {
    && Distinct(order) && (forall n :: n in order <==> n in store)
    && forall i, j :: 0 <= i < j < |order| ==> store[order[i]].number <= store[order[j]].number
  }

  predicate AllStored(store: Store, order: seq<Hash>) { forall n :: n in order ==> n in store }

  // ---------------------------------------------------------------- choosing the update revision

  function NextRevision(store: Store, order: seq<Hash>): int
    requires AllStored(store, order)
  {
    if order == [] then 1 else store[order[|order| - 1]].number + 1
  }

  /** The newest listed revision equal to the needle. */
  function LastEqual(h: Hashing, store: Store, order: seq<Hash>, needle: Revision): (r: Option<Hash>)
    requires AllStored(store, order)
    ensures r.Some? ==> r.value in order && EqualRevision(h, store[r.value], needle)
    ensures r.None? ==> forall n :: n in order ==> !EqualRevision(h, store[n], needle)
    ensures r.Some? ==> exists i :: && 0 <= i < |order| && order[i] == r.value
                                    && forall j :: i < j < |order| ==> !EqualRevision(h, store[order[j]], needle)
  {
    if order == [] then None
    else
      var n := |order| - 1;
      if EqualRevision(h, store[order[n]], needle) then Some(order[n]) else LastEqual(h, store, order[..n], needle)
  }

  method FindEqualRevisions(h: Hashing, store: Store, order: seq<Hash>, needle: Revision) returns (eq: seq<Hash>)
    requires AllStored(store, order)
    ensures (if eq == [] then None else Some(eq[|eq| - 1])) == LastEqual(h, store, order, needle)
    ensures forall n :: n in eq <==>
              && n in order && store[n].data == needle.data
              && !(h.numeral(store[n].hashLabel).Some? && h.numeral(needle.hashLabel).Some?
                   && h.numeral(store[n].hashLabel) != h.numeral(needle.hashLabel))
  {
    eq := [];
    for i := 0 to |order|
      invariant forall n :: n in eq <==> n in order[..i] && EqualRevision(h, store[n], needle)
      invariant (if eq == [] then None else Some(eq[|eq| - 1])) == LastEqual(h, store, order[..i], needle)
    {
      assert order[..i + 1][..i] == order[..i];
      if EqualRevision(h, store[order[i]], needle) {
        eq := eq + [order[i]];
      }
    }
    assert order[..|order|] == order;
  }

  /** Probe p ends the search for a name: the name is free, or taken by the same data. */
  predicate Ends(h: Hashing, store: Store, d: Data, p: nat) {
    h.hash(d, p) !in store || store[h.hash(d, p)].data == d
  }

  ghost predicate IsProbe(h: Hashing, store: Store, d: Data, c: nat, p: nat) {
    c <= p && Ends(h, store, d, p) && forall k :: c <= k < p ==> !Ends(h, store, d, k)
  }

  function Created(store: Store, name: Hash, r: Revision): Store {
    if name in store then store else store[name := r]
  }

  /** The history and the update revision after the template `spec` has been looked up or recorded. */
  datatype Active = Active(store: Store, update: Hash, collisions: nat)

  function Needle(h: Hashing, store: Store, order: seq<Hash>, spec: Data, c: nat): Revision
    requires AllStored(store, order)
  {
    Revision(spec, h.hash(spec, c), NextRevision(store, order))
  }

  function Activate(h: Hashing, store: Store, order: seq<Hash>, spec: Data, c: nat, p: nat): Active
    requires AllStored(store, order)
  {
    var needle := Needle(h, store, order, spec, c);
    var e := LastEqual(h, store, order, needle);
    if e.None? then
      Active(Created(store, h.hash(spec, p), needle), h.hash(spec, p), p)
    else if EqualRevision(h, store[order[|order| - 1]], store[e.value]) then
      Active(store, order[|order| - 1], c)
    else
      Active(store[e.value := store[e.value].(number := needle.number)], e.value, c)
  }

  /** The template is found among the listed revisions: the same data, and labels that do not read as different
      numbers. */
  ghost predicate Found(h: Hashing, store: Store, order: seq<Hash>, spec: Data, c: nat)
    requires AllStored(store, order)
  {
    exists n :: && n in order && store[n].data == spec
                && !(h.numeral(store[n].hashLabel).Some? && h.numeral(h.hash(spec, c)).Some?
                     && h.numeral(store[n].hashLabel) != h.numeral(h.hash(spec, c)))
  }

  /** One more than the last listed revision, or one. */
  ghost predicate IsNextNumber(store: Store, order: seq<Hash>, number: int)
    requires AllStored(store, order)
  {
    if order == [] then number == 1 else number == store[order[|order| - 1]].number + 1
  }

  /** A template that is not found gets the next number under the name that ends the search, unless that name holds it
      already; one that is found keeps the collision count, and no revision changes but the number of its own, to the
      next one, and only if the last listed revision does not equal it. */
  lemma ActivateCases(h: Hashing, store: Store, order: seq<Hash>, spec: Data, c: nat, p: nat)
    requires AllStored(store, order)
    ensures var a := Activate(h, store, order, spec, c, p);
            && (!Found(h, store, order, spec, c) ==>
                  && a.update == h.hash(spec, p) && a.collisions == p
                  && (a.update in store ==> a.store == store)
                  && (a.update !in store ==>
                        && a.update in a.store && a.store - {a.update} == store
                        && a.store[a.update].data == spec && a.store[a.update].hashLabel == h.hash(spec, c)
                        && IsNextNumber(store, order, a.store[a.update].number)))
            && (Found(h, store, order, spec, c) ==>
                  && a.update in order && a.store.Keys == store.Keys && a.collisions == c
                  && a.store[a.update].data == store[a.update].data == spec
                  && (forall n :: n in store && n != a.update ==> a.store[n] == store[n])
                  && (a.update == order[|order| - 1] ==> a.store == store)
                  && (a.update != order[|order| - 1] ==> IsNextNumber(store, order, a.store[a.update].number))
                  && (Found(h, store, order[|order| - 1..], spec, c) ==> a.update == order[|order| - 1]))
  {
    var needle := Needle(h, store, order, spec, c);
    var e := LastEqual(h, store, order, needle);
    assert forall n :: n in order ==>
        (EqualRevision(h, store[n], needle) <==>
         && store[n].data == spec
         && !(h.numeral(store[n].hashLabel).Some? && h.numeral(h.hash(spec, c)).Some?
              && h.numeral(store[n].hashLabel) != h.numeral(h.hash(spec, c))));
    assert e.Some? <==> Found(h, store, order, spec, c);
    assert order != [] ==> order[|order| - 1] in order;
    if e.None? && h.hash(spec, p) !in store {
      assert Activate(h, store, order, spec, c, p).store - {h.hash(spec, p)} == store;
    }
  }

  function CurrentOf(order: seq<Hash>, recorded: Option<Hash>, update: Hash): Hash {
    if recorded.Some? && recorded.value in order then recorded.value else update
  }

  // ---------------------------------------------------------------- truncation

  predicate Live(n: Hash, current: Hash, update: Hash, used: set<Hash>) {
    n == current || n == update || n in used
  }

  function NonLive(order: seq<Hash>, current: Hash, update: Hash, used: set<Hash>): (r: seq<Hash>)
    ensures forall n :: n in r <==> n in order && !Live(n, current, update, used)
  {
    if order == [] then []
    else
      var n := |order| - 1;
      var front := NonLive(order[..n], current, update, used);
      if Live(order[n], current, update, used) then front else front + [order[n]]
  }

  function Excess(nonLive: seq<Hash>, limit: nat): (r: nat)
    ensures r <= |nonLive| && |nonLive| - r == Min(|nonLive|, limit)
  {
    Max(0, |nonLive| - limit)
  }

  // ---------------------------------------------------------------- the API objects, updated in place

  class History {
    var store: Store

    /** Tries names until one is free or already holds the same data. */
    method CreateControllerRevision(h: Hashing, r: Revision, c: nat, ghost p: nat) returns (name: Hash, collisions: nat)
      requires IsProbe(h, store, r.data, c, p)
      modifies this
      ensures collisions == p && name == h.hash(r.data, p)
      ensures store == Created(old(store), name, r)
    {
      collisions := c;
      while true
        invariant c <= collisions <= p
        invariant store == old(store)
        decreases p - collisions
      {
        name := h.hash(r.data, collisions);
        if name !in store {
          assert Ends(h, store, r.data, collisions);
          store := store[name := r];
          return;
        }
        if store[name].data == r.data {
          assert Ends(h, store, r.data, collisions);
          return;
        }
        assert !Ends(h, store, r.data, collisions);
        collisions := collisions + 1;
      }
    }

    method UpdateControllerRevision(name: Hash, number: int)
      requires name in store
      modifies this
      ensures store == old(store)[name := old(store)[name].(number := number)]
    {
      if store[name].number == number {
        assert store[name].(number := number) == store[name];
        return;
      }
      store := store[name := store[name].(number := number)];
    }

    method GetActiveRevisions(h: Hashing, order: seq<Hash>, spec: Data, recorded: Option<Hash>, c: nat, ghost p: nat)
      returns (current: Hash, update: Hash, collisions: nat)
      requires AllStored(store, order)
      requires LastEqual(h, store, order, Needle(h, store, order, spec, c)).None? ==> IsProbe(h, store, spec, c, p)
      modifies this
      ensures Active(store, update, collisions) == Activate(h, old(store), order, spec, c, p)
      ensures current == CurrentOf(order, recorded, update)
      ensures recorded.Some? && recorded.value in order ==> current == recorded.value
      ensures recorded.None? || recorded.value !in order ==> current == update
    {
      var needle := Needle(h, store, order, spec, c);
      var equalRevisions := FindEqualRevisions(h, store, order, needle);
      collisions := c;
      if equalRevisions != []
         && EqualRevision(h, store[order[|order| - 1]], store[equalRevisions[|equalRevisions| - 1]])
      {
        update := order[|order| - 1];
      } else if equalRevisions != [] {
        update := equalRevisions[|equalRevisions| - 1];
        UpdateControllerRevision(update, needle.number);
      } else {
        update, collisions := CreateControllerRevision(h, needle, c, p);
      }
      var found := false;
      current := update;
      for i := 0 to |order|
        invariant !found
        invariant recorded.None? || recorded.value !in order[..i]
        invariant current == update
      {
        if Some(order[i]) == recorded {
          current := order[i];
          found := true;
          break;
        }
      }
    }

    /** Deletes the oldest revisions that are not live until `limit` of them are left; stops where the API refuses. */
    method TruncateHistory(order: seq<Hash>, pods: seq<Hash>, current: Hash, update: Hash, limit: Option<nat>,
                           refused: Hash -> bool)
      returns (deleted: nat)
      modifies this
      ensures var nonLive := NonLive(order, current, update, Elements(pods));
              var excess := Excess(nonLive, if limit.Some? then limit.value else 10);
              && deleted <= excess
              && store == old(store) - Elements(nonLive[..deleted])
              && (deleted < excess ==> refused(nonLive[deleted]))
              && (forall i :: 0 <= i < deleted ==> !refused(nonLive[i]))
    {
      var noLiveRevisions := CollectNonLive(order, pods, current, update);
      var historyLimit := if limit.Some? then limit.value else DEFAULT_LIMIT;
      deleted := 0;
      assert store == old(store) - Elements(noLiveRevisions[..0]);
      if |noLiveRevisions| <= historyLimit {
        return;
      }
      while deleted < |noLiveRevisions| - historyLimit
        invariant 0 <= deleted <= |noLiveRevisions| - historyLimit
        invariant store == old(store) - Elements(noLiveRevisions[..deleted])
        invariant forall i :: 0 <= i < deleted ==> !refused(noLiveRevisions[i])
      {
        if refused(noLiveRevisions[deleted]) {
          return;
        }
        store := store - {noLiveRevisions[deleted]};
        assert noLiveRevisions[..deleted + 1] == noLiveRevisions[..deleted] + [noLiveRevisions[deleted]];
        deleted := deleted + 1;
      }
    }
  }

  /** The listed revisions that are neither current, nor to be updated to, nor used by a pod, in order. */
  method CollectNonLive(order: seq<Hash>, pods: seq<Hash>, current: Hash, update: Hash) returns (r: seq<Hash>)
    ensures r == NonLive(order, current, update, Elements(pods))
    ensures forall n :: n in r <==> n in order && n != current && n != update && n !in pods
  {
    r := [];
    for i := 0 to |order|
      invariant r == NonLive(order[..i], current, update, Elements(pods))
    {
      assert order[..i + 1][..i] == order[..i];
      if order[i] != current && order[i] != update {
        var found := false;
        for k := 0 to |pods|
          invariant found <==> order[i] in pods[..k]
        {
          assert pods[..k + 1] == pods[..k] + [pods[k]];
          if pods[k] == order[i] {
            found := true;
            assert order[i] in pods;
            break;
          }
        }
        assert pods[..|pods|] == pods;
        assert found <==> order[i] in Elements(pods);
        if !found {
          r := r + [order[i]];
        }
      }
    }
    assert order[..|order|] == order;
  }
}
