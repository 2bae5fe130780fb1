/** Do two label selectors overlap? The two answers the repository gives, against the meaning of selectors: the label
    maps that satisfy them. */
module LabelSelectors {
  import opened Prelude

  datatype Op = In | NotIn | Exists | DoesNotExist

  datatype Req = Req(op: Op, values: seq<string>)

  datatype Expression = Expression(key: string, req: Req)

  datatype Selector = Selector(matchLabels: map<string, string>, matchExpressions: seq<Expression>)

  type Labels = map<string, string>

  // ---------------------------------------------------------------- meaning

  function LabelAt(labels: Labels, k: string): Option<string> {
    if k in labels then Some(labels[k]) else None
  }

  /** Does a requirement admit the value of its label, or the absence of the label? */
  predicate Admits(r: Req, v: Option<string>) {
    match r.op
    case In => v.Some? && v.value in r.values
    case NotIn => v.None? || v.value !in r.values
    case Exists => v.Some?
    case DoesNotExist => v.None?
  }

  ghost predicate Satisfies(s: Selector, labels: Labels) {
    && (forall k :: k in s.matchLabels ==> LabelAt(labels, k) == Some(s.matchLabels[k]))
    && (forall i :: 0 <= i < |s.matchExpressions| ==>
          Admits(s.matchExpressions[i].req, LabelAt(labels, s.matchExpressions[i].key)))
  }

  ghost predicate SatisfiableTogether(a: Selector, b: Selector) {
    exists labels :: Satisfies(a, labels) && Satisfies(b, labels)
  }

  /** One requirement per key, and something to choose from where a value is demanded. */
  ghost predicate Plain(s: Selector) {
    && (forall i :: 0 <= i < |s.matchExpressions| ==> s.matchExpressions[i].key !in s.matchLabels)
    && (forall i, j :: 0 <= i < j < |s.matchExpressions| ==> s.matchExpressions[i].key != s.matchExpressions[j].key)
    && (forall i :: 0 <= i < |s.matchExpressions| ==>
          s.matchExpressions[i].req.op == In ==> s.matchExpressions[i].req.values != [])
  }

  // ---------------------------------------------------------------- requirements by key

  type Reqs = map<string, Req>

  function ExpressionReqs(es: seq<Expression>): Reqs {
    if es == [] then map[] else ExpressionReqs(es[..|es| - 1])[es[|es| - 1].key := es[|es| - 1].req]
  }

  function LabelReqs(m: map<string, string>): Reqs {
    map k | k in m :: Req(In, [m[k]])
  }

  function ReqsOf(s: Selector): Reqs { ExpressionReqs(s.matchExpressions) + LabelReqs(s.matchLabels) }

  /** A key that is not mentioned admits everything. */
  function ReqAt(m: Reqs, k: string): Req { if k in m then m[k] else Req(NotIn, []) }

  lemma {:induction false} ExpressionReqsSound(es: seq<Expression>)
    requires forall i, j :: 0 <= i < j < |es| ==> es[i].key != es[j].key
    ensures forall i :: 0 <= i < |es| ==> es[i].key in ExpressionReqs(es) && ExpressionReqs(es)[es[i].key] == es[i].req
    ensures forall k :: k in ExpressionReqs(es) ==> exists i :: 0 <= i < |es| && es[i].key == k
  {
    if es != [] {
      var n := |es| - 1;
      ExpressionReqsSound(es[..n]);
      forall i | 0 <= i < |es|
        ensures es[i].key in ExpressionReqs(es) && ExpressionReqs(es)[es[i].key] == es[i].req
      {
        if i < n {
          assert es[..n][i] == es[i];
        }
      }
      forall k | k in ExpressionReqs(es)
        ensures exists i :: 0 <= i < |es| && es[i].key == k
      {
        if k != es[n].key {
          var i :| 0 <= i < n && es[..n][i].key == k;
          assert es[i].key == k;
        }
      }
    }
  }

  lemma ReqsSound(s: Selector)
    requires Plain(s)
    ensures forall i :: 0 <= i < |s.matchExpressions| ==>
              var e := s.matchExpressions[i]; e.key in ReqsOf(s) && ReqsOf(s)[e.key] == e.req
    ensures forall k :: k in s.matchLabels ==> k in ReqsOf(s) && ReqsOf(s)[k] == Req(In, [s.matchLabels[k]])
    ensures forall k :: k in ReqsOf(s) ==>
              k in s.matchLabels || exists i :: 0 <= i < |s.matchExpressions| && s.matchExpressions[i].key == k
    ensures HasChoices(ReqsOf(s))
  {
    ExpressionReqsSound(s.matchExpressions);
  }

  /** A label map meets the requirement of every key. */
  ghost predicate Meets(labels: Labels, m: Reqs) { forall k :: k in m ==> Admits(m[k], LabelAt(labels, k)) }

  ghost predicate MetTogether(m: Reqs, n: Reqs) { exists labels :: Meets(labels, m) && Meets(labels, n) }

  /** Where a value is demanded there is something to choose from. */
  ghost predicate HasChoice(r: Req) { r.op == In ==> r.values != [] }

  ghost predicate HasChoices(m: Reqs) { forall k :: k in m ==> HasChoice(m[k]) }

  lemma SatisfiesByKey(s: Selector, labels: Labels)
    requires Plain(s)
    ensures Satisfies(s, labels) <==> Meets(labels, ReqsOf(s))
  {
    ReqsSound(s);
  }

  // ---------------------------------------------------------------- compatibility of two requirements

  ghost predicate Compatible(a: Req, b: Req) { exists v :: Admits(a, v) && Admits(b, v) }

  function Longest(values: seq<string>): (n: nat)
    ensures forall v :: v in values ==> |v| <= n
  {
    if values == [] then 0
    else
      var k := |values| - 1;
      assert values == values[..k] + [values[k]];
      var n := Longest(values[..k]);
      if |values[k]| > n then |values[k]| else n
  }

  /** A value that none of the given ones is. */
  function NewValue(values: seq<string>): (v: string)
    ensures v !in values
  {
    seq(Longest(values) + 1, _ => 'x')
  }

  function FirstAdmitted(values: seq<string>, r: Req): (v: Option<string>)
    ensures v.Some? ==> v.value in values && Admits(r, v)
    ensures v.None? ==> forall x :: x in values ==> !Admits(r, Some(x))
  {
    if values == [] then None
    else if Admits(r, Some(values[0])) then Some(values[0]) else FirstAdmitted(values[1..], r)
  }

  /** A value both requirements admit, if there is one. */
  function Witness(a: Req, b: Req): Option<string> {
    if a.op == In then FirstAdmitted(a.values, b)
    else if b.op == In then FirstAdmitted(b.values, a)
    else if a.op == Exists || b.op == Exists then Some(NewValue(a.values + b.values))
    else None
  }

  lemma WitnessAdmitted(a: Req, b: Req)
    requires Compatible(a, b)
    ensures Admits(a, Witness(a, b)) && Admits(b, Witness(a, b))
  {
  }

  /** Compatibility, case by case. */
  ghost predicate CanMeet(a: Req, b: Req) {
    match a.op
    case In => && b.op != DoesNotExist
               && (b.op == In ==> exists x :: x in a.values && x in b.values)
               && (b.op == NotIn ==> exists x :: x in a.values && x !in b.values)
    case NotIn => b.op == In ==> exists x :: x in b.values && x !in a.values
    case Exists => b.op != DoesNotExist
    case DoesNotExist => b.op == DoesNotExist || b.op == NotIn
  }

  lemma CanMeetAt(a: Req, b: Req) returns (v: Option<string>)
    requires CanMeet(a, b) && HasChoice(a) && HasChoice(b)
    ensures Admits(a, v) && Admits(b, v)
  {
    if a.op == In {
      if b.op == Exists {
        v := Some(a.values[0]);
      } else {
        var x :| x in a.values && Admits(b, Some(x));
        v := Some(x);
      }
    } else if b.op == In {
      if a.op == Exists {
        v := Some(b.values[0]);
      } else {
        var x :| x in b.values && x !in a.values;
        v := Some(x);
      }
    } else if a.op == Exists || b.op == Exists {
      var x := NewValue(a.values + b.values);
      assert x !in a.values && x !in b.values;
      v := Some(x);
    } else {
      v := None;
    }
  }

  lemma CompatibleCases(a: Req, b: Req)
    requires HasChoice(a) && HasChoice(b)
    ensures Compatible(a, b) <==> CanMeet(a, b)
  {
    if CanMeet(a, b) {
      var v := CanMeetAt(a, b);
    }
  }

  // ---------------------------------------------------------------- from compatible keys to a label map

  /** Requirements are met by a common label map exactly if they are compatible key by key. */
  lemma MetTogetherByKey(m: Reqs, n: Reqs)
    ensures MetTogether(m, n) <==> CompatibleEverywhere(m, n)
  {
    if MetTogether(m, n) {
      var labels :| Meets(labels, m) && Meets(labels, n);
      forall k | k in m.Keys + n.Keys
        ensures Compatible(ReqAt(m, k), ReqAt(n, k))
      {
        assert Admits(ReqAt(m, k), LabelAt(labels, k)) && Admits(ReqAt(n, k), LabelAt(labels, k));
      }
    }
    if CompatibleEverywhere(m, n) {
      var labels := Chosen(m, n);
      forall k | k in m.Keys + n.Keys
        ensures Admits(ReqAt(m, k), LabelAt(labels, k)) && Admits(ReqAt(n, k), LabelAt(labels, k))
      {
        WitnessAdmitted(ReqAt(m, k), ReqAt(n, k));
        assert LabelAt(labels, k) == Witness(ReqAt(m, k), ReqAt(n, k));
      }
      assert Meets(labels, m) && Meets(labels, n);
    }
  }

  lemma TogetherByKey(a: Selector, b: Selector)
    requires Plain(a) && Plain(b)
    ensures SatisfiableTogether(a, b) <==> MetTogether(ReqsOf(a), ReqsOf(b))
  {
    forall labels
      ensures Satisfies(a, labels) && Satisfies(b, labels) <==> Meets(labels, ReqsOf(a)) && Meets(labels, ReqsOf(b))
    {
      SatisfiesByKey(a, labels);
      SatisfiesByKey(b, labels);
    }
  }

  ghost predicate CompatibleEverywhere(m: Reqs, n: Reqs) {
    forall k :: k in m.Keys + n.Keys ==> Compatible(ReqAt(m, k), ReqAt(n, k))
  }

  function Chosen(m: Reqs, n: Reqs): Labels {
    map k | k in m.Keys + n.Keys && Witness(ReqAt(m, k), ReqAt(n, k)).Some? :: Witness(ReqAt(m, k), ReqAt(n, k)).value
  }

  // ---------------------------------------------------------------- the code: helpers

  method SliceOverlaps(a: seq<string>, b: seq<string>) returns (r: bool)
    ensures r <==> exists x :: x in a && x in b
  {
    var keyExist := KeySet(a);
    for i := 0 to |b|
      invariant forall x :: x in b[..i] ==> x !in a
    {
      assert b[..i + 1] == b[..i] + [b[i]];
      if b[i] in keyExist {
        return true;
      }
    }
    assert b[..|b|] == b;
    return false;
  }

  /** Does a contain b? */
  method SliceContains(a: seq<string>, b: seq<string>) returns (r: bool)
    ensures r <==> forall x :: x in b ==> x in a
  {
    var keyExist := KeySet(a);
    for i := 0 to |b|
      invariant forall x :: x in b[..i] ==> x in a
    {
      assert b[..i + 1] == b[..i] + [b[i]];
      if b[i] !in keyExist {
        return false;
      }
    }
    assert b[..|b|] == b;
    return true;
  }

  method KeySet(a: seq<string>) returns (r: set<string>)
    ensures forall x :: x in r <==> x in a
  {
    r := {};
    for i := 0 to |a|
      invariant forall x :: x in r <==> x in a[..i]
    {
      assert a[..i + 1] == a[..i] + [a[i]];
      r := r + {a[i]};
    }
    assert a[..|a|] == a;
  }

  /** No expression after the i-th is about the key. */
  ghost predicate LastOn(es: seq<Expression>, k: string, i: int) {
    0 <= i < |es| && es[i].key == k && forall j :: i < j < |es| ==> es[j].key != k
  }

  lemma {:induction false} LastExpressionWins(es: seq<Expression>, k: string, i: nat)
    requires LastOn(es, k, i)
    ensures k in ExpressionReqs(es) && ExpressionReqs(es)[k] == es[i].req
  {
    var n := |es| - 1;
    if i < n {
      assert LastOn(es[..n], k, i);
      LastExpressionWins(es[..n], k, i);
    }
  }

  lemma {:induction false} NoExpressionNoReq(es: seq<Expression>, k: string)
    requires forall i :: 0 <= i < |es| ==> es[i].key != k
    ensures k !in ExpressionReqs(es)
  {
    if es != [] {
      NoExpressionNoReq(es[..|es| - 1], k);
    }
  }

  /** Match labels win over expressions, the last expression on a key over the others, and there is nothing else. */
  lemma WinningReqs(s: Selector, k: string)
    ensures k in s.matchLabels ==> k in ReqsOf(s) && ReqsOf(s)[k] == Req(In, [s.matchLabels[k]])
    ensures k !in s.matchLabels ==>
              forall i :: LastOn(s.matchExpressions, k, i) ==>
                k in ReqsOf(s) && ReqsOf(s)[k] == s.matchExpressions[i].req
    ensures k !in s.matchLabels && (forall i :: 0 <= i < |s.matchExpressions| ==> s.matchExpressions[i].key != k) ==>
              k !in ReqsOf(s)
  {
    forall i | LastOn(s.matchExpressions, k, i)
      ensures k in ExpressionReqs(s.matchExpressions)
      ensures ExpressionReqs(s.matchExpressions)[k] == s.matchExpressions[i].req
    {
      LastExpressionWins(s.matchExpressions, k, i);
    }
    if forall i :: 0 <= i < |s.matchExpressions| ==> s.matchExpressions[i].key != k {
      NoExpressionNoReq(s.matchExpressions, k);
    }
  }

  method ConvertSelectorToMatchExpressions(s: Selector) returns (m: Reqs)
    ensures m == ReqsOf(s)
  {
    m := map[];
    for i := 0 to |s.matchExpressions|
      invariant m == ExpressionReqs(s.matchExpressions[..i])
    {
      var e := s.matchExpressions[i];
      assert s.matchExpressions[..i + 1][..i] == s.matchExpressions[..i];
      m := m[e.key := e.req];
    }
    assert s.matchExpressions[..|s.matchExpressions|] == s.matchExpressions;
    var rest := s.matchLabels.Keys;
    while rest != {}
      invariant rest <= s.matchLabels.Keys
      invariant m == ExpressionReqs(s.matchExpressions) + (LabelReqs(s.matchLabels) - rest)
      decreases rest
    {
      var k :| k in rest;
      m := m[k := Req(In, [s.matchLabels[k]])];
      rest := rest - {k};
    }
  }

  // ---------------------------------------------------------------- loose overlap

  method IsMatchExpOverlap(a: Req, b: Req) returns (r: bool)
    ensures r <==> CanMeet(a, b)
    ensures HasChoice(a) && HasChoice(b) ==> (r <==> Compatible(a, b))
  {
    if HasChoice(a) && HasChoice(b) {
      CompatibleCases(a, b);
    }
    match a.op {
      case In =>
        if b.op == Exists {
          return true;
        }
        if b.op == In {
          r := SliceOverlaps(b.values, a.values);
          return;
        }
        if b.op == NotIn {
          var contained := SliceContains(b.values, a.values);
          return !contained;
        }
        return false;
      case Exists =>
        return b.op == In || b.op == NotIn || b.op == Exists;
      case NotIn =>
        if b.op == Exists || b.op == DoesNotExist || b.op == NotIn {
          return true;
        }
        var contained := SliceContains(a.values, b.values);
        return !contained;
      case DoesNotExist =>
        return b.op == DoesNotExist || b.op == NotIn;
    }
  }

  /** An In without values meets an Exists and nothing else, whichever comes first. */
  lemma EmptyInMeets(b: Req)
    ensures CanMeet(Req(In, []), b) <==> b.op == Exists
    ensures b.op != In ==> (CanMeet(b, Req(In, [])) <==> b.op == Exists)
  {
  }

  method KeysMeet(m: Reqs, n: Reqs) returns (r: bool)
    ensures r <==> forall k :: k in m ==> k in n && CanMeet(m[k], n[k])
  {
    var rest := m.Keys;
    while rest != {}
      invariant rest <= m.Keys
      invariant forall k :: k in m.Keys - rest ==> k in n && CanMeet(m[k], n[k])
      decreases rest
    {
      var k :| k in rest;
      if k !in n {
        return false;
      }
      var meet := IsMatchExpOverlap(m[k], n[k]);
      if !meet {
        return false;
      }
      rest := rest - {k};
    }
    return true;
  }

  /** The same keys, and requirements that can meet at each of them. */
  ghost predicate LooselyOverlap(m: Reqs, n: Reqs) {
    m.Keys == n.Keys && forall k :: k in m ==> CanMeet(m[k], n[k])
  }

  /** Loose overlap of any two selectors is judged on one requirement per key, the last one, match labels winning: the
      same keys, and a label map that meets the requirements judged. So with one requirement per key in the first place
      it is the same keys and a label map that satisfies both selectors. */
  method IsSelectorLooseOverlap(a: Selector, b: Selector) returns (r: bool)
    ensures r <==> LooselyOverlap(ReqsOf(a), ReqsOf(b))
    ensures HasChoices(ReqsOf(a)) && HasChoices(ReqsOf(b)) ==>
              (r <==> ReqsOf(a).Keys == ReqsOf(b).Keys && MetTogether(ReqsOf(a), ReqsOf(b)))
    ensures Plain(a) && Plain(b) ==> (r <==> ReqsOf(a).Keys == ReqsOf(b).Keys && SatisfiableTogether(a, b))
  {
    var m := ConvertSelectorToMatchExpressions(a);
    var n := ConvertSelectorToMatchExpressions(b);
    LooselyOverlapMeaning(m, n);
    LooselyOverlapOfPlain(a, b);
    LooselyOverlapBothWays(m, n);
    var forth := KeysMeet(m, n);
    if !forth {
      return false;
    }
    r := KeysMeet(n, m);
  }

  lemma LooselyOverlapBothWays(m: Reqs, n: Reqs)
    ensures LooselyOverlap(m, n) <==>
            && (forall k :: k in m ==> k in n && CanMeet(m[k], n[k]))
            && (forall k :: k in n ==> k in m && CanMeet(n[k], m[k]))
  {
    if forall k :: k in m ==> k in n {
      if forall k :: k in n ==> k in m {
        assert m.Keys == n.Keys;
      }
    }
    assert m.Keys == n.Keys ==> forall k :: k in m <==> k in n.Keys;
  }

  lemma LooselyOverlapMeaning(m: Reqs, n: Reqs)
    ensures HasChoices(m) && HasChoices(n) ==> (LooselyOverlap(m, n) <==> m.Keys == n.Keys && MetTogether(m, n))
  {
    if HasChoices(m) && HasChoices(n) && m.Keys == n.Keys {
      MetTogetherByKey(m, n);
      forall k | k in m
        ensures k in n && (CanMeet(m[k], n[k]) <==> Compatible(ReqAt(m, k), ReqAt(n, k)))
      {
        assert k in n.Keys;
        CompatibleCases(m[k], n[k]);
      }
      assert forall k :: k in m.Keys + n.Keys <==> k in m;
    }
  }

  lemma LooselyOverlapOfPlain(a: Selector, b: Selector)
    ensures Plain(a) && Plain(b) ==>
              (LooselyOverlap(ReqsOf(a), ReqsOf(b)) <==> ReqsOf(a).Keys == ReqsOf(b).Keys && SatisfiableTogether(a, b))
  {
    if Plain(a) && Plain(b) {
      ReqsSound(a);
      ReqsSound(b);
      TogetherByKey(a, b);
      LooselyOverlapMeaning(ReqsOf(a), ReqsOf(b));
    }
  }

  lemma CompatibleSymmetric(a: Req, b: Req)
    ensures Compatible(a, b) <==> Compatible(b, a)
  {
  }

  // ---------------------------------------------------------------- overlap

  const ALL: string := "ALL"

  /** The keys a selector demands, with the values it allows them. */
  type Matched = map<string, seq<string>>

  predicate Demands(r: Req) { r.op == In || r.op == Exists }

  function MatchedOf(m: Reqs): Matched {
    map k | k in m && Demands(m[k]) :: if m[k].op == In then m[k].values else [ALL]
  }

  lemma MatchedExtends(m: Reqs, k: string, r: Req)
    requires k !in m
    ensures MatchedOf(m[k := r])
            == if !Demands(r) then MatchedOf(m)
               else MatchedOf(m)[k := if r.op == In then r.values else [ALL]]
  {
  }

  /** The keys of the match labels and of the first i expressions. */
  function ReqsUpTo(s: Selector, i: nat): Reqs
    requires i <= |s.matchExpressions|
  {
    LabelReqs(s.matchLabels) + ExpressionReqs(s.matchExpressions[..i])
  }

  lemma ReqsUpToNext(s: Selector, i: nat)
    requires Plain(s) && i < |s.matchExpressions|
    ensures s.matchExpressions[i].key !in ReqsUpTo(s, i)
    ensures ReqsUpTo(s, i + 1) == ReqsUpTo(s, i)[s.matchExpressions[i].key := s.matchExpressions[i].req]
  {
    var es := s.matchExpressions;
    NoExpressionNoReq(es[..i], es[i].key);
    assert es[..i + 1][..i] == es[..i];
  }

  lemma ReqsUpToEnd(s: Selector)
    requires Plain(s)
    ensures ReqsUpTo(s, |s.matchExpressions|) == ReqsOf(s)
  {
    var es := s.matchExpressions;
    assert es[..|es|] == es;
    ExpressionReqsSound(es);
  }

  method CollectLabels(labels: map<string, string>) returns (matched: Matched)
    ensures matched == MatchedOf(LabelReqs(labels))
  {
    matched := map[];
    var rest := labels.Keys;
    while rest != {}
      invariant rest <= labels.Keys
      invariant matched == MatchedOf(LabelReqs(labels)) - rest
      decreases rest
    {
      var k :| k in rest;
      matched := matched[k := [labels[k]]];
      rest := rest - {k};
    }
  }

  /** The map after the match labels and the first i expressions: values of In are appended, Exists replaces. */
  function MatchedUpTo(s: Selector, i: nat): Matched
    requires i <= |s.matchExpressions|
  {
    if i == 0 then MatchedOf(LabelReqs(s.matchLabels))
    else
      var e, before := s.matchExpressions[i - 1], MatchedUpTo(s, i - 1);
      match e.req.op
      case In =>
        if e.req.values == [] then before
        else before[e.key := (if e.key in before then before[e.key] else []) + e.req.values]
      case Exists => before[e.key := [ALL]]
      case _ => before
  }

  function MatchedBy(s: Selector): Matched { MatchedUpTo(s, |s.matchExpressions|) }

  method CollectMatched(s: Selector) returns (matched: Matched)
    ensures matched == MatchedBy(s)
    ensures Plain(s) ==> matched == MatchedOf(ReqsOf(s))
  {
    matched := CollectLabels(s.matchLabels);
    for i := 0 to |s.matchExpressions|
      invariant matched == MatchedUpTo(s, i)
    {
      var e := s.matchExpressions[i];
      if e.req.op == In {
        matched := AppendValues(matched, e.key, e.req.values);
      } else if e.req.op == Exists {
        matched := matched[e.key := [ALL]];
      }
    }
    PlainMatched(s);
  }

  method AppendValues(matched: Matched, key: string, values: seq<string>) returns (r: Matched)
    ensures r == if values == [] then matched
                 else matched[key := (if key in matched then matched[key] else []) + values]
  {
    r := matched;
    ghost var start := if key in matched then matched[key] else [];
    for j := 0 to |values|
      invariant r == if j == 0 then matched else matched[key := start + values[..j]]
    {
      assert start + values[..j + 1] == start + values[..j] + [values[j]];
      assert start + values[..0] == start;
      r := r[key := (if key in r then r[key] else []) + [values[j]]];
    }
    assert values[..|values|] == values;
  }

  lemma {:induction false} PlainMatchedUpTo(s: Selector, i: nat)
    requires Plain(s) && i <= |s.matchExpressions|
    ensures MatchedUpTo(s, i) == MatchedOf(ReqsUpTo(s, i))
  {
    if i == 0 {
      assert LabelReqs(s.matchLabels) == ReqsUpTo(s, 0);
    } else {
      var e := s.matchExpressions[i - 1];
      PlainMatchedUpTo(s, i - 1);
      ReqsUpToNext(s, i - 1);
      MatchedExtends(ReqsUpTo(s, i - 1), e.key, e.req);
      assert e.key !in MatchedUpTo(s, i - 1);
      assert [] + e.req.values == e.req.values;
    }
  }

  lemma PlainMatched(s: Selector)
    ensures Plain(s) ==> MatchedBy(s) == MatchedOf(ReqsOf(s))
  {
    if Plain(s) {
      PlainMatchedUpTo(s, |s.matchExpressions|);
      ReqsUpToEnd(s);
    }
  }

  /** Whatever else a selector says on a key, an Exists makes it demanded with any value. */
  lemma {:induction false} ExistsDemandsAny(s: Selector, i: nat, k: nat)
    requires k < i <= |s.matchExpressions| && s.matchExpressions[k].req.op == Exists
    ensures var key := s.matchExpressions[k].key; key in MatchedUpTo(s, i) && ALL in MatchedUpTo(s, i)[key]
  {
    if k < i - 1 {
      ExistsDemandsAny(s, i - 1, k);
    }
  }

  /** Without Exists, the values allowed on a key are that of its match label and those of all its In expressions. */
  lemma {:induction false} AllowedValues(s: Selector, i: nat, k: string, x: string)
    requires i <= |s.matchExpressions| && forall j :: 0 <= j < i ==> s.matchExpressions[j].req.op != Exists
    ensures (k in MatchedUpTo(s, i) && x in MatchedUpTo(s, i)[k]) <==>
            || (k in s.matchLabels && s.matchLabels[k] == x)
            || exists j :: 0 <= j < i && s.matchExpressions[j].key == k && s.matchExpressions[j].req.op == In
                           && x in s.matchExpressions[j].req.values
  {
    if i > 0 {
      AllowedValues(s, i - 1, k, x);
    }
  }

  ghost predicate DisjointAt(matched: Matched, k: string, r: Req) {
    match r.op
    case In => k in matched && ALL !in matched[k] && !exists x :: x in matched[k] && x in r.values
    case NotIn => k in matched && forall x :: x in matched[k] ==> x in r.values
    case Exists => k !in matched
    case DoesNotExist => k in matched
  }

  ghost predicate Disjoint(m: Reqs, n: Reqs) {
    exists k :: k in n && DisjointAt(MatchedOf(m), k, n[k])
  }

  /** Some requirement of s clashes with what is demanded. */
  ghost predicate DisjointFrom(matched: Matched, s: Selector) {
    || (exists k :: k in s.matchLabels && DisjointAt(matched, k, Req(In, [s.matchLabels[k]])))
    || (exists i :: && 0 <= i < |s.matchExpressions|
                    && DisjointAt(matched, s.matchExpressions[i].key, s.matchExpressions[i].req))
  }

  method LabelsDisjoint(matched: Matched, labels: map<string, string>) returns (r: bool)
    ensures r <==> exists k :: k in labels && DisjointAt(matched, k, Req(In, [labels[k]]))
  {
    var rest := labels.Keys;
    while rest != {}
      invariant rest <= labels.Keys
      invariant forall k :: k in labels.Keys - rest ==> !DisjointAt(matched, k, Req(In, [labels[k]]))
      decreases rest
    {
      var k :| k in rest;
      if k in matched && ALL !in matched[k] && labels[k] !in matched[k] {
        assert DisjointAt(matched, k, Req(In, [labels[k]]));
        return true;
      }
      assert k in matched && labels[k] in matched[k] ==> labels[k] in [labels[k]];
      rest := rest - {k};
    }
    return false;
  }

  method ExpressionDisjoint(matched: Matched, key: string, req: Req) returns (r: bool)
    ensures r <==> DisjointAt(matched, key, req)
  {
    match req.op {
      case In =>
        if key !in matched || ALL in matched[key] {
          return false;
        }
        var overlaps := SliceOverlaps(matched[key], req.values);
        return !overlaps;
      case NotIn =>
        if key !in matched {
          return false;
        }
        r := SliceContains(req.values, matched[key]);
      case Exists =>
        return key !in matched;
      case DoesNotExist =>
        return key in matched;
    }
  }

  method IsDisjoint(a: Selector, b: Selector) returns (r: bool)
    ensures r <==> DisjointFrom(MatchedBy(a), b)
  {
    var matched := CollectMatched(a);
    r := LabelsDisjoint(matched, b.matchLabels);
    if r {
      return;
    }
    for i := 0 to |b.matchExpressions|
      invariant forall j :: 0 <= j < i ==> !DisjointAt(matched, b.matchExpressions[j].key, b.matchExpressions[j].req)
    {
      r := ExpressionDisjoint(matched, b.matchExpressions[i].key, b.matchExpressions[i].req);
      if r {
        return;
      }
    }
  }

  lemma PlainDisjoint(a: Selector, b: Selector)
    requires Plain(a) && Plain(b)
    ensures DisjointFrom(MatchedBy(a), b) <==> Disjoint(ReqsOf(a), ReqsOf(b))
  {
    PlainMatched(a);
    ReqsSound(b);
  }

  /** Every key that m wants to exist is demanded by n too. */
  ghost predicate ExistsCovered(m: Reqs, n: Reqs) {
    forall k :: k in m && m[k].op == Exists ==> k in n && Demands(n[k])
  }

  ghost predicate NotDisjointAt(m: Reqs, n: Reqs, k: string) {
    && (k in n ==> !DisjointAt(MatchedOf(m), k, n[k]))
    && (k in m ==> !DisjointAt(MatchedOf(n), k, m[k]))
  }

  ghost predicate CoveredAt(m: Reqs, n: Reqs, k: string) {
    && (k in m && m[k].op == Exists ==> k in n && Demands(n[k]))
    && (k in n && n[k].op == Exists ==> k in m && Demands(m[k]))
  }

  lemma BothMentioned(m: Reqs, n: Reqs, k: string)
    requires k in m && k in n
    requires HasChoice(m[k]) && HasChoice(n[k])
    ensures NotDisjointAt(m, n, k) <==> Compatible(m[k], n[k]) && CoveredAt(m, n, k)
  {
    CompatibleCases(m[k], n[k]);
    var a, b := m[k], n[k];
    if a.op == In && b.op == In && ALL in a.values && ALL in b.values {
      assert exists x :: x in a.values && x in b.values;
    }
  }

  lemma OneMentioned(m: Reqs, n: Reqs, k: string)
    requires k in m && k !in n
    requires HasChoice(m[k])
    ensures NotDisjointAt(m, n, k) <==> Compatible(m[k], Req(NotIn, [])) && CoveredAt(m, n, k)
  {
    CompatibleCases(m[k], Req(NotIn, []));
    if m[k].op == In {
      assert m[k].values[0] in m[k].values;
    }
  }

  lemma NotDisjointByKey(m: Reqs, n: Reqs, k: string)
    requires k in m || k in n
    requires (k in m ==> HasChoice(m[k])) && (k in n ==> HasChoice(n[k]))
    ensures NotDisjointAt(m, n, k) <==> Compatible(ReqAt(m, k), ReqAt(n, k)) && CoveredAt(m, n, k)
  {
    if k in m && k in n {
      BothMentioned(m, n, k);
    } else if k in m {
      OneMentioned(m, n, k);
    } else {
      OneMentioned(n, m, k);
      CompatibleSymmetric(ReqAt(m, k), ReqAt(n, k));
    }
  }

  lemma OverlapByKey(m: Reqs, n: Reqs)
    requires HasChoices(m) && HasChoices(n)
    ensures !(Disjoint(m, n) || Disjoint(n, m)) <==> MetTogether(m, n) && ExistsCovered(m, n) && ExistsCovered(n, m)
  {
    MetTogetherByKey(m, n);
    forall k | k in m.Keys + n.Keys
      ensures NotDisjointAt(m, n, k) <==> Compatible(ReqAt(m, k), ReqAt(n, k)) && CoveredAt(m, n, k)
    {
      NotDisjointByKey(m, n, k);
    }
    NeverDisjoint(m, n);
    AlwaysCovered(m, n);
  }

  lemma NeverDisjoint(m: Reqs, n: Reqs)
    ensures !(Disjoint(m, n) || Disjoint(n, m)) <==> forall k :: k in m.Keys + n.Keys ==> NotDisjointAt(m, n, k)
  {
    if Disjoint(m, n) {
      var k :| k in n && DisjointAt(MatchedOf(m), k, n[k]);
      assert k in m.Keys + n.Keys && !NotDisjointAt(m, n, k);
    } else if Disjoint(n, m) {
      var k :| k in m && DisjointAt(MatchedOf(n), k, m[k]);
      assert k in m.Keys + n.Keys && !NotDisjointAt(m, n, k);
    }
  }

  lemma AlwaysCovered(m: Reqs, n: Reqs)
    ensures ExistsCovered(m, n) && ExistsCovered(n, m) <==> forall k :: k in m.Keys + n.Keys ==> CoveredAt(m, n, k)
  {
    if forall k :: k in m.Keys + n.Keys ==> CoveredAt(m, n, k) {
      forall k | k in m && m[k].op == Exists
        ensures k in n && Demands(n[k])
      {
        assert k in m.Keys + n.Keys;
      }
      forall k | k in n && n[k].op == Exists
        ensures k in m && Demands(m[k])
      {
        assert k in m.Keys + n.Keys;
      }
    }
  }

  ghost predicate Overlap(a: Selector, b: Selector) {
    !(DisjointFrom(MatchedBy(a), b) || DisjointFrom(MatchedBy(b), a))
  }

  ghost predicate WithoutExists(s: Selector) {
    forall i :: 0 <= i < |s.matchExpressions| ==> s.matchExpressions[i].req.op != Exists
  }

  /** Overlap. With one requirement per key: some label map satisfies both selectors, and every key that one wants to
      exist is demanded by the other. For any selectors without Exists: at least, what some label map satisfies is never
      called disjoint. */
  method IsSelectorOverlapping(a: Selector, b: Selector) returns (r: bool)
    ensures r <==> Overlap(a, b)
    ensures Plain(a) && Plain(b) ==>
              (r <==> && SatisfiableTogether(a, b)
                      && ExistsCovered(ReqsOf(a), ReqsOf(b)) && ExistsCovered(ReqsOf(b), ReqsOf(a)))
    ensures WithoutExists(a) && WithoutExists(b) && SatisfiableTogether(a, b) ==> r
  {
    OverlapOfPlain(a, b);
    SatisfiableOverlaps(a, b);
    var disjoint := IsDisjoint(a, b);
    if disjoint {
      return false;
    }
    disjoint := IsDisjoint(b, a);
    return !disjoint;
  }

  lemma OverlapOfPlain(a: Selector, b: Selector)
    ensures Plain(a) && Plain(b) ==>
              (Overlap(a, b) <==> && SatisfiableTogether(a, b)
                                  && ExistsCovered(ReqsOf(a), ReqsOf(b)) && ExistsCovered(ReqsOf(b), ReqsOf(a)))
  {
    if Plain(a) && Plain(b) {
      PlainDisjoint(a, b);
      PlainDisjoint(b, a);
      ReqsSound(a);
      ReqsSound(b);
      TogetherByKey(a, b);
      OverlapByKey(ReqsOf(a), ReqsOf(b));
    }
  }

  /** A label map that satisfies a selector without Exists has, at every key demanded, a value that is allowed. */
  lemma {:induction false} MatchedAdmits(s: Selector, i: nat, labels: Labels)
    requires Satisfies(s, labels) && WithoutExists(s) && i <= |s.matchExpressions|
    ensures forall k :: k in MatchedUpTo(s, i) ==> k in labels && labels[k] in MatchedUpTo(s, i)[k]
  {
    if i == 0 {
      assert forall k :: k in s.matchLabels ==> LabelAt(labels, k) == Some(s.matchLabels[k]);
    } else {
      MatchedAdmits(s, i - 1, labels);
      var e := s.matchExpressions[i - 1];
      assert Admits(e.req, LabelAt(labels, e.key));
    }
  }

  lemma SatisfiedNotDisjoint(a: Selector, b: Selector, labels: Labels)
    requires Satisfies(a, labels) && Satisfies(b, labels) && WithoutExists(a) && WithoutExists(b)
    ensures !DisjointFrom(MatchedBy(a), b)
  {
    MatchedAdmits(a, |a.matchExpressions|, labels);
    forall k | k in b.matchLabels
      ensures !DisjointAt(MatchedBy(a), k, Req(In, [b.matchLabels[k]]))
    {
      assert LabelAt(labels, k) == Some(b.matchLabels[k]);
    }
    forall i | 0 <= i < |b.matchExpressions|
      ensures !DisjointAt(MatchedBy(a), b.matchExpressions[i].key, b.matchExpressions[i].req)
    {
      assert Admits(b.matchExpressions[i].req, LabelAt(labels, b.matchExpressions[i].key));
    }
  }

  lemma SatisfiableOverlaps(a: Selector, b: Selector)
    ensures WithoutExists(a) && WithoutExists(b) && SatisfiableTogether(a, b) ==> Overlap(a, b)
  {
    if WithoutExists(a) && WithoutExists(b) && SatisfiableTogether(a, b) {
      var labels :| Satisfies(a, labels) && Satisfies(b, labels);
      SatisfiedNotDisjoint(a, b, labels);
      SatisfiedNotDisjoint(b, a, labels);
    }
  }

  lemma NothingToCover(a: Selector, n: Reqs)
    requires Plain(a) && WithoutExists(a)
    ensures ExistsCovered(ReqsOf(a), n)
  {
    ReqsSound(a);
    forall k | k in ReqsOf(a)
      ensures ReqsOf(a)[k].op != Exists
    {
      if k !in a.matchLabels {
        var i :| 0 <= i < |a.matchExpressions| && a.matchExpressions[i].key == k;
      }
    }
  }

  /** Without Exists and with one requirement per key, overlap is satisfiability by a common label map. */
  lemma OverlapIsSatisfiability(a: Selector, b: Selector)
    requires Plain(a) && Plain(b) && WithoutExists(a) && WithoutExists(b)
    ensures Overlap(a, b) <==> SatisfiableTogether(a, b)
  {
    OverlapOfPlain(a, b);
    NothingToCover(a, ReqsOf(b));
    NothingToCover(b, ReqsOf(a));
  }

  /** An Exists that the other selector does not mention is called disjoint, although a label map satisfies both. */
  lemma ExistsMisjudged(k: string, other: string, v: string)
    requires k != other
    ensures var a := Selector(map[], [Expression(k, Req(Exists, []))]);
            var b := Selector(map[other := v], []);
            Plain(a) && Plain(b) && SatisfiableTogether(a, b) && !Overlap(a, b)
  {
    var a := Selector(map[], [Expression(k, Req(Exists, []))]);
    var b := Selector(map[other := v], []);
    var labels := map[k := v, other := v];
    assert Satisfies(a, labels) && Satisfies(b, labels);
    assert DisjointAt(MatchedBy(b), a.matchExpressions[0].key, a.matchExpressions[0].req);
  }

  /** Two requirements on one key of a selector: it is called overlapping with a selector that demands nothing, although
      no label map satisfies it. */
  lemma RepeatedKeyMisjudged(k: string, v: string)
    ensures var a := Selector(map[k := v], [Expression(k, Req(NotIn, [v]))]);
            var b := Selector(map[], []);
            Overlap(a, b) && !SatisfiableTogether(a, b)
  {
    var a := Selector(map[k := v], [Expression(k, Req(NotIn, [v]))]);
    var first := a.matchExpressions[0];
    forall labels
      ensures !Satisfies(a, labels)
    {
      assert k in a.matchLabels && first.key == k && first.req == Req(NotIn, [v]);
    }
  }
}
