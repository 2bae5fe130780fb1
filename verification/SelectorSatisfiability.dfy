/** When a label map satisfies two selectors that may have any number of requirements on a key, and exactly when the
    overlap test without Exists is wrong about it. */
module SelectorSatisfiability {
  import opened Prelude
  import opened LabelSelectors

  function Keys(s: Selector): set<string> {
    s.matchLabels.Keys + set i | 0 <= i < |s.matchExpressions| :: s.matchExpressions[i].key
  }

  /** Every requirement of the selector on the key admits the value of the label, or its absence. */
  predicate AdmitsAt(s: Selector, k: string, v: Option<string>) {
    && (k in s.matchLabels ==> v == Some(s.matchLabels[k]))
    && (forall i :: 0 <= i < |s.matchExpressions| && s.matchExpressions[i].key == k ==>
          Admits(s.matchExpressions[i].req, v))
  }

  ghost predicate SomeValueAt(a: Selector, b: Selector, k: string) {
    exists v :: AdmitsAt(a, k, v) && AdmitsAt(b, k, v)
  }

  lemma SatisfiesAt(s: Selector, labels: Labels)
    ensures Satisfies(s, labels) <==> forall k :: k in Keys(s) ==> AdmitsAt(s, k, LabelAt(labels, k))
  {
    if forall k :: k in Keys(s) ==> AdmitsAt(s, k, LabelAt(labels, k)) {
      forall k | k in s.matchLabels
        ensures LabelAt(labels, k) == Some(s.matchLabels[k])
      {
        assert k in Keys(s);
      }
      forall i | 0 <= i < |s.matchExpressions|
        ensures Admits(s.matchExpressions[i].req, LabelAt(labels, s.matchExpressions[i].key))
      {
        assert s.matchExpressions[i].key in Keys(s);
      }
    }
  }

  /** The label map is built key by key. */
  lemma {:induction false} LabelsFor(a: Selector, b: Selector, keys: set<string>) returns (labels: Labels)
    requires forall k :: k in keys ==> SomeValueAt(a, b, k)
    ensures labels.Keys <= keys
    ensures forall k :: k in keys ==> AdmitsAt(a, k, LabelAt(labels, k)) && AdmitsAt(b, k, LabelAt(labels, k))
    decreases |keys|
  {
    if keys == {} {
      return map[];
    }
    var key := SomeElement(keys);
    var rest := LabelsFor(a, b, keys - {key});
    var v :| AdmitsAt(a, key, v) && AdmitsAt(b, key, v);
    labels := if v.Some? then rest[key := v.value] else rest;
    assert LabelAt(labels, key) == v;
    assert forall k :: k != key ==> LabelAt(labels, k) == LabelAt(rest, k);
  }

  lemma SilentAt(s: Selector, k: string, v: Option<string>)
    requires k !in Keys(s)
    ensures AdmitsAt(s, k, v)
  {
    forall i | 0 <= i < |s.matchExpressions|
      ensures s.matchExpressions[i].key != k
    {
      assert s.matchExpressions[i].key in Keys(s);
    }
  }

  /** A label map satisfies both selectors if and only if each key admits a value, or its absence, under all the
      requirements of both on that key. */
  lemma SatisfiableByKey(a: Selector, b: Selector)
    ensures SatisfiableTogether(a, b) <==> forall k :: k in Keys(a) + Keys(b) ==> SomeValueAt(a, b, k)
  {
    if SatisfiableTogether(a, b) {
      var labels :| Satisfies(a, labels) && Satisfies(b, labels);
      SatisfiesAt(a, labels);
      SatisfiesAt(b, labels);
      forall k | k in Keys(a) + Keys(b)
        ensures SomeValueAt(a, b, k)
      {
        if k !in Keys(a) { SilentAt(a, k, LabelAt(labels, k)); }
        if k !in Keys(b) { SilentAt(b, k, LabelAt(labels, k)); }
      }
    }
    if forall k :: k in Keys(a) + Keys(b) ==> SomeValueAt(a, b, k) {
      var labels := LabelsFor(a, b, Keys(a) + Keys(b));
      SatisfiesAt(a, labels);
      SatisfiesAt(b, labels);
    }
  }

  // ---------------------------------------------------------------- finitely many values to try

  /** The values a selector names, for any key. */
  function Named(s: Selector): set<string> {
    s.matchLabels.Values + set i, x | 0 <= i < |s.matchExpressions| && x in s.matchExpressions[i].req.values :: x
  }

  /** The absence of the label, the values named, and one value that is not named. */
  function Candidates(a: Selector, b: Selector, unnamed: string): set<Option<string>> {
    {None, Some(unnamed)} + set x | x in Named(a) + Named(b) :: Some(x)
  }

  /** No requirement tells two values apart that it does not name. */
  lemma UnnamedAlike(s: Selector, k: string, v: string, unnamed: string)
    requires v !in Named(s) && unnamed !in Named(s) && AdmitsAt(s, k, Some(v))
    ensures AdmitsAt(s, k, Some(unnamed))
  {
    forall i | 0 <= i < |s.matchExpressions| && s.matchExpressions[i].key == k
      ensures Admits(s.matchExpressions[i].req, Some(unnamed))
    {
      var r := s.matchExpressions[i].req;
      assert Admits(r, Some(v));
      assert v in r.values ==> v in Named(s);
      assert unnamed in r.values ==> unnamed in Named(s);
    }
  }

  lemma CandidatesSuffice(a: Selector, b: Selector, k: string, unnamed: string)
    requires unnamed !in Named(a) + Named(b)
    ensures SomeValueAt(a, b, k) <==>
            exists v :: v in Candidates(a, b, unnamed) && AdmitsAt(a, k, v) && AdmitsAt(b, k, v)
  {
    if SomeValueAt(a, b, k) {
      var v :| AdmitsAt(a, k, v) && AdmitsAt(b, k, v);
      if v !in Candidates(a, b, unnamed) {
        assert v.value in Named(a) + Named(b) ==> v in Candidates(a, b, unnamed);
        UnnamedAlike(a, k, v.value, unnamed);
        UnnamedAlike(b, k, v.value, unnamed);
        assert Some(unnamed) in Candidates(a, b, unnamed);
      }
    }
  }

  /** Some key admits none of the candidates under all the requirements of both selectors. */
  predicate Contradictory(a: Selector, b: Selector, unnamed: string) {
    exists k :: k in Keys(a) + Keys(b) &&
      forall v :: v in Candidates(a, b, unnamed) ==> !(AdmitsAt(a, k, v) && AdmitsAt(b, k, v))
  }

  lemma SatisfiableIff(a: Selector, b: Selector, unnamed: string)
    requires unnamed !in Named(a) + Named(b)
    ensures SatisfiableTogether(a, b) <==> !Contradictory(a, b, unnamed)
  {
    SatisfiableByKey(a, b);
    forall k | k in Keys(a) + Keys(b)
      ensures SomeValueAt(a, b, k) <==>
              exists v :: v in Candidates(a, b, unnamed) && AdmitsAt(a, k, v) && AdmitsAt(b, k, v)
    {
      CandidatesSuffice(a, b, k, unnamed);
    }
  }

  // ---------------------------------------------------------------- one requirement on a key

  ghost predicate OnKey(s: Selector, k: string, i: int) {
    0 <= i < |s.matchExpressions| && s.matchExpressions[i].key == k
  }

  /** The selector has at most one requirement on the key, and not an In without values. */
  ghost predicate SingleAt(s: Selector, k: string) {
    && (k in s.matchLabels ==> forall i :: !OnKey(s, k, i))
    && (forall i, j :: OnKey(s, k, i) && OnKey(s, k, j) ==> i == j)
    && (forall i :: OnKey(s, k, i) ==> HasChoice(s.matchExpressions[i].req))
  }

  ghost function ReqOn(s: Selector, k: string): Req {
    if k in s.matchLabels then Req(In, [s.matchLabels[k]])
    else if i :| OnKey(s, k, i) then s.matchExpressions[i].req
    else Req(NotIn, [])
  }

  lemma AdmitsBySingle(s: Selector, k: string, v: Option<string>)
    requires SingleAt(s, k)
    ensures HasChoice(ReqOn(s, k)) && (Admits(ReqOn(s, k), v) <==> AdmitsAt(s, k, v))
  {
    forall i | 0 <= i < |s.matchExpressions| && s.matchExpressions[i].key == k
      ensures k !in s.matchLabels && s.matchExpressions[i].req == ReqOn(s, k)
    {
      assert OnKey(s, k, i);
    }
  }

  /** What the first i expressions demand of the key. */
  lemma {:induction false} MatchedBySingle(s: Selector, k: string, i: nat)
    requires SingleAt(s, k) && WithoutExists(s) && i <= |s.matchExpressions|
    ensures k in MatchedUpTo(s, i) <==>
            k in s.matchLabels || exists j :: OnKey(s, k, j) && j < i && s.matchExpressions[j].req.op == In
    ensures k in MatchedUpTo(s, i) ==> ReqOn(s, k) == Req(In, MatchedUpTo(s, i)[k])
  {
    if i > 0 {
      MatchedBySingle(s, k, i - 1);
      var e := s.matchExpressions[i - 1];
      if e.key == k {
        assert OnKey(s, k, i - 1);
        assert [] + e.req.values == e.req.values;
      }
    }
  }

  lemma MatchedIffDemanded(s: Selector, k: string)
    requires SingleAt(s, k) && WithoutExists(s)
    ensures ReqOn(s, k).op != Exists && HasChoice(ReqOn(s, k))
    ensures k in MatchedBy(s) <==> ReqOn(s, k).op == In
    ensures k in MatchedBy(s) ==> MatchedBy(s)[k] == ReqOn(s, k).values
  {
    MatchedBySingle(s, k, |s.matchExpressions|);
    AdmitsBySingle(s, k, None);
    if k !in s.matchLabels && exists i :: OnKey(s, k, i) {
      var i :| OnKey(s, k, i) && ReqOn(s, k) == s.matchExpressions[i].req;
    }
  }

  lemma NoClashOn(matched: Matched, s: Selector, k: string)
    requires !DisjointFrom(matched, s)
    requires k in matched ==> matched[k] != []
    ensures ReqOn(s, k).op != Exists ==> !DisjointAt(matched, k, ReqOn(s, k))
  {
    if k !in s.matchLabels && exists i :: OnKey(s, k, i) {
      var i :| OnKey(s, k, i) && ReqOn(s, k) == s.matchExpressions[i].req;
    } else if k !in s.matchLabels && k in matched {
      assert matched[k][0] in matched[k] && matched[k][0] !in ReqOn(s, k).values;
    }
  }

  /** Where both selectors have a single requirement, requirements that do not clash leave a value. */
  lemma SingleKeysAgree(a: Selector, b: Selector, k: string)
    requires WithoutExists(a) && WithoutExists(b) && Overlap(a, b) && SingleAt(a, k) && SingleAt(b, k)
    ensures SomeValueAt(a, b, k)
  {
    MatchedIffDemanded(a, k);
    MatchedIffDemanded(b, k);
    NoClashOn(MatchedBy(a), b, k);
    NoClashOn(MatchedBy(b), a, k);
    var v := CanMeetAt(ReqOn(a, k), ReqOn(b, k));
    AdmitsBySingle(a, k, v);
    AdmitsBySingle(b, k, v);
  }

  /** Some key on which one selector has two requirements, or an In without values, admits none of the candidates under
      all the requirements of both. */
  ghost predicate ContradictoryRepeat(a: Selector, b: Selector, unnamed: string) {
    exists k :: k in Keys(a) + Keys(b) && !(SingleAt(a, k) && SingleAt(b, k)) &&
      forall v :: v in Candidates(a, b, unnamed) ==> !(AdmitsAt(a, k, v) && AdmitsAt(b, k, v))
  }

  lemma ContradictionIsRepeat(a: Selector, b: Selector, unnamed: string)
    requires WithoutExists(a) && WithoutExists(b) && Overlap(a, b) && unnamed !in Named(a) + Named(b)
    requires Contradictory(a, b, unnamed)
    ensures ContradictoryRepeat(a, b, unnamed)
  {
    var k :| k in Keys(a) + Keys(b) &&
      forall v :: v in Candidates(a, b, unnamed) ==> !(AdmitsAt(a, k, v) && AdmitsAt(b, k, v));
    CandidatesSuffice(a, b, k, unnamed);
    if SingleAt(a, k) && SingleAt(b, k) {
      SingleKeysAgree(a, b, k);
    }
  }

  /** Without Exists, whatever the requirements on a key: the overlap test is wrong if and only if no requirement of
      one selector clashes with what the other demands, yet some key admits no value under all of them; and that key is
      one on which a single selector has two requirements, or an In without values. */
  lemma OverlapWrongIff(a: Selector, b: Selector, unnamed: string)
    requires WithoutExists(a) && WithoutExists(b) && unnamed !in Named(a) + Named(b)
    ensures (Overlap(a, b) <==> SatisfiableTogether(a, b)) <==>
            (DisjointFrom(MatchedBy(a), b) || DisjointFrom(MatchedBy(b), a) || !Contradictory(a, b, unnamed))
    ensures (Overlap(a, b) <==> SatisfiableTogether(a, b)) <==>
            (DisjointFrom(MatchedBy(a), b) || DisjointFrom(MatchedBy(b), a) || !ContradictoryRepeat(a, b, unnamed))
  {
    SatisfiableIff(a, b, unnamed);
    SatisfiableOverlaps(a, b);
    if Overlap(a, b) && Contradictory(a, b, unnamed) {
      ContradictionIsRepeat(a, b, unnamed);
    }
  }
}
