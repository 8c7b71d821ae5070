/** A partial step repeated a number of times: the last state and what each step put out. */
module Repetition {
  /** The step is defined wherever `inv` holds and leads to where it holds again. */
  ghost predicate Closed<S(!new), C>(step: S --> (S, C), inv: S -> bool) {
    forall s {:trigger step.requires(s)} :: inv(s) ==> step.requires(s) && inv(step(s).0)
  }

  function Last<S(!new), C>(step: S --> (S, C), ghost inv: S -> bool, s: S, n: nat): S
    requires Closed(step, inv) && inv(s)
    decreases n
  {
    if n == 0 then s else Last(step, inv, step(s).0, n - 1)
  }

  function Outputs<S(!new), C>(step: S --> (S, C), ghost inv: S -> bool, s: S, n: nat): seq<C>
    requires Closed(step, inv) && inv(s)
    decreases n
  {
    if n == 0 then [] else [step(s).1] + Outputs(step, inv, step(s).0, n - 1)
  }

  /** A repetition can be cut anywhere. */
  lemma {:induction false} RepeatInTwo<S(!new), C>(step: S --> (S, C), inv: S -> bool, s: S, a: nat, b: nat)
    requires Closed(step, inv) && inv(s)
    ensures inv(Last(step, inv, s, a))
    ensures Last(step, inv, s, a + b) == Last(step, inv, Last(step, inv, s, a), b)
    ensures Outputs(step, inv, s, a + b) == Outputs(step, inv, s, a) + Outputs(step, inv, Last(step, inv, s, a), b)
    decreases a
  {
    if a != 0 {
      RepeatInTwo(step, inv, step(s).0, a - 1, b);
    }
  }
}
