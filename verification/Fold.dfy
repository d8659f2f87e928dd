/** Left folds: running a step function over a sequence of inputs. */
module Fold {

  function Run<S, B>(step: (S, B) -> S, s: S, inputs: seq<B>): S {
    if inputs == [] then s else Run(step, step(s, inputs[0]), inputs[1..])
  }

  lemma RunCons<S, B>(step: (S, B) -> S, s: S, b: B, rest: seq<B>)
    ensures Run(step, s, [b] + rest) == Run(step, step(s, b), rest)
  {
    assert ([b] + rest)[1..] == rest;
  }

  lemma {:induction false} RunAppend<S, B>(step: (S, B) -> S, s: S, a: seq<B>, b: seq<B>)
    ensures Run(step, s, a + b) == Run(step, Run(step, s, a), b)
  {
    if a == [] {
      assert a + b == b;
    } else {
      assert (a + b)[1..] == a[1..] + b;
      RunAppend(step, step(s, a[0]), a[1..], b);
    }
  }

  /** A fold whose steps lose nothing keeps different states different. */
  lemma {:induction false} RunInjective<S(!new), B(!new)>(step: (S, B) -> S, s: S, s': S, inputs: seq<B>)
    requires forall x, y, b :: step(x, b) == step(y, b) ==> x == y
    requires s != s'
    ensures Run(step, s, inputs) != Run(step, s', inputs)
  {
    if inputs != [] {
      RunInjective(step, step(s, inputs[0]), step(s', inputs[0]), inputs[1..]);
    }
  }
}
