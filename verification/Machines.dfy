/** Runs of a state machine, given by a partial step function. */
module Machines {
  ghost predicate Run<S(!new), A>(fire: (S, A) --> S, s: S, steps: seq<A>, t: S)
    decreases |steps|
  {
    if steps == [] then s == t
    else fire.requires(s, steps[0]) && Run(fire, fire(s, steps[0]), steps[1..], t)
  }

  lemma {:induction false} RunThrough<S(!new), A>(fire: (S, A) --> S, states: seq<S>, steps: seq<A>, k: nat)
    requires |states| == |steps| + 1 && k <= |steps|
    requires forall i :: 0 <= i < |steps| ==>
               fire.requires(states[i], steps[i]) && fire(states[i], steps[i]) == states[i + 1]
    ensures Run(fire, states[k], steps[k..], states[|steps|])
    decreases |steps| - k
  {
    if k < |steps| {
      RunThrough(fire, states, steps, k + 1);
      assert steps[k..][1..] == steps[k + 1..];
    }
  }

  lemma {:induction false} RunsAppend<S(!new), A>(fire: (S, A) --> S, s: S, first: seq<A>, t: S, second: seq<A>, u: S)
    requires Run(fire, s, first, t) && Run(fire, t, second, u)
    ensures Run(fire, s, first + second, u)
    decreases |first|
  {
    if first == [] {
      assert first + second == second;
    } else {
      RunsAppend(fire, fire(s, first[0]), first[1..], t, second, u);
      assert (first + second)[1..] == first[1..] + second;
    }
  }

  lemma RunPrepends<S(!new), A>(fire: (S, A) --> S, s: S, step: A, steps: seq<A>, t: S)
    requires fire.requires(s, step) && Run(fire, fire(s, step), steps, t)
    ensures Run(fire, s, [step] + steps, t)
  {
    assert ([step] + steps)[1..] == steps;
  }
}
