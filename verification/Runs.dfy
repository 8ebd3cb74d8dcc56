/** What every step of a run keeps, the run keeps. */
module Runs {

  ghost predicate Follows<S(!new), R(!new)>(states: seq<S>, steps: seq<R>, next: (S, R, S) -> bool, k: nat) {
    k < |steps| && k + 1 < |states| && next(states[k], steps[k], states[k + 1])
  }

  /** The states before, between and after the steps. */
  ghost predicate IsRun<S(!new), R(!new)>(states: seq<S>, steps: seq<R>, next: (S, R, S) -> bool) {
    |states| == |steps| + 1 && forall k :: 0 <= k < |steps| ==> Follows(states, steps, next, k)
  }

  lemma {:induction false} Invariant<S(!new), R(!new)>(states: seq<S>, steps: seq<R>, next: (S, R, S) -> bool,
                                                       inv: S -> bool, j: nat, k: nat)
    requires IsRun(states, steps, next) && j <= k < |states| && inv(states[j])
    requires forall s, r, t :: inv(s) && next(s, r, t) ==> inv(t)
    ensures inv(states[k])
    decreases k
  {
    if j < k {
      Invariant(states, steps, next, inv, j, k - 1);
      assert Follows(states, steps, next, k - 1);
    }
  }

  /** If no step changes what can be seen of a state, the run does not. */
  lemma {:induction false} View<S(!new), R(!new), V(!new)>(states: seq<S>, steps: seq<R>, next: (S, R, S) -> bool,
                                                           inv: S -> bool, view: S -> V, j: nat, k: nat)
    requires IsRun(states, steps, next) && j <= k < |states| && inv(states[j])
    requires forall s, r, t :: inv(s) && next(s, r, t) ==> inv(t) && view(t) == view(s)
    ensures inv(states[k]) && view(states[k]) == view(states[j])
    decreases k
  {
    if j < k {
      View(states, steps, next, inv, view, j, k - 1);
      assert Follows(states, steps, next, k - 1);
    }
  }
}
