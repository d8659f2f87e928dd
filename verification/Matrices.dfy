/** Square matrices in row-major arrays, over any arithmetic. */
module Matrices {

  /** The arithmetic of `data_t`: nothing is assumed of it, so wrap-around and rounding are covered. */
  datatype Arithmetic<!D> = Arithmetic(zero: D, add: (D, D) -> D, mul: (D, D) -> D)

  /** The position r*lda + c of an entry, and the number lda*lda of entries. */
  function Flat(lda: nat, r: nat, c: nat): (k: nat)
    ensures k >= c
  {
    if r == 0 then c else lda + Flat(lda, r - 1, c)
  }

  function Size(lda: nat): nat { Flat(lda, lda, 0) }

  lemma {:induction false} FlatIsProduct(lda: nat, r: nat, c: nat)
    ensures Flat(lda, r, c) == r * lda + c
  {
    if r > 0 {
      FlatIsProduct(lda, r - 1, c);
    }
  }

  lemma {:induction false} FlatShift(w: nat, r: nat, c: nat, d: nat)
    ensures Flat(w, r, c + d) == Flat(w, r, c) + d
  {
    if r > 0 {
      FlatShift(w, r - 1, c, d);
    }
  }

  lemma FlatInRange(lda: nat, r: nat, c: nat)
    requires r < lda && c < lda
    ensures Flat(lda, r, c) < Size(lda)
  {
    FlatRows(lda, r, c, lda);
  }

  lemma {:induction false} FlatRows(lda: nat, r: nat, c: nat, n: nat)
    requires r < n && c < lda
    ensures Flat(lda, r, c) < Flat(lda, n, 0)
  {
    if r == 0 {
      assert Flat(lda, n, 0) == lda + Flat(lda, n - 1, 0);
    } else {
      FlatRows(lda, r - 1, c, n - 1);
    }
  }

  lemma {:induction false} FlatInjective(lda: nat, r: nat, c: nat, r': nat, c': nat)
    requires c < lda && c' < lda && Flat(lda, r, c) == Flat(lda, r', c')
    ensures r == r' && c == c'
  {
    if r > 0 && r' > 0 {
      FlatInjective(lda, r - 1, c, r' - 1, c');
    }
  }

  /** start + A[r,0]*B[0,c] + ... + A[r,n-1]*B[n-1,c], added from left to right. */
  function Dot<D>(op: Arithmetic<D>, lda: nat, A: seq<D>, B: seq<D>, r: nat, c: nat, start: D, n: nat): D
    requires |A| == |B| == Size(lda) && r < lda && c < lda && n <= lda
  {
    if n == 0 then start
    else
      FlatInRange(lda, r, n - 1);
      FlatInRange(lda, n - 1, c);
      op.add(Dot(op, lda, A, B, r, c, start, n - 1), op.mul(A[Flat(lda, r, n - 1)], B[Flat(lda, n - 1, c)]))
  }
}
