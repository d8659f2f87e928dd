/** The places p, p + step, p + 2*step, ... that a loop with a constant stride goes through. */
module Strides {
  import opened Bits

  predicate Visited(i: nat, p: nat, step: nat)
    requires step > 0
    decreases i - p
  {
    i == p || (i > p && Visited(i, p + step, step))
  }

  lemma NotBefore(i: nat, p: nat, step: nat)
    requires step > 0
    ensures Visited(i, p, step) ==> i >= p
  {
  }

  /** After a visited place the next one is a stride away. */
  lemma {:induction false} NextVisited(i: nat, p: nat, step: nat)
    requires step > 0 && Visited(i, p, step)
    ensures Visited(i + step, p, step) && forall k: nat :: i < k < i + step ==> !Visited(k, p, step)
    decreases i - p
  {
    if i == p {
      assert Visited(i + step, p + step, step);
      forall k: nat | i < k < i + step ensures !Visited(k, p, step) {
        NotBefore(k, p + step, step);
      }
    } else {
      NextVisited(i, p + step, step);
    }
  }

  lemma {:induction false} ShiftVisited(i: nat, p: nat, step: nat)
    requires step > 0
    ensures Visited(i + step, p + step, step) == Visited(i, p, step)
    decreases i - p
  {
    if i > p {
      ShiftVisited(i, p + step, step);
    }
  }

  /** The places visited are those at multiples of the stride. */
  lemma {:induction false} VisitedIs(i: nat, p: nat, step: nat)
    requires step > 0
    ensures Visited(i, p, step) <==> i >= p && (i - p) % step == 0
    decreases i - p
  {
    if i > p {
      VisitedIs(i, p + step, step);
      if i >= p + step {
        OneStride(i - p, step);
      }
    }
  }

  lemma OneStride(d: nat, step: nat)
    requires 0 < step <= d
    ensures d % step == (d - step) % step
  {
    var q, r := (d - step) / step, (d - step) % step;
    assert d == (q + 1) * step + r;
    DivModUnique(d, step, q + 1, r);
  }

  /** Every place is on the way of exactly one of the starts 0, ..., step - 1. */
  lemma {:induction false} OneOwner(i: nat, step: nat) returns (p: nat)
    requires step > 0
    ensures p < step && Visited(i, p, step) && forall q: nat :: q < step && Visited(i, q, step) ==> q == p
  {
    if i < step {
      p := i;
      forall q: nat | q < step && Visited(i, q, step) ensures q == p {
        NotBefore(i, q + step, step);
      }
    } else {
      p := OneOwner(i - step, step);
      forall q: nat | q < step ensures Visited(i, q, step) == Visited(i - step, q, step) {
        ShiftVisited(i - step, q, step);
      }
    }
  }
}
