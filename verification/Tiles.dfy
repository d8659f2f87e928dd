/** What blocked kernels share: a matrix whose entries have taken in different parts of their scalar products. */
module Tiles {
  import opened Bits
  import opened Matrices
  import opened Strides

  /** The operands and the matrix that C holds at first. */
  datatype Problem<!D> = Problem(op: Arithmetic<D>, lda: nat, A: seq<D>, B: seq<D>, C: seq<D>)
  {
    predicate Valid() { lda > 0 && |A| == |B| == |C| == Size(lda) }

    function Term(r: nat, c: nat, k: nat): D
      requires Valid() && r < lda && c < lda && k < lda
    {
      FlatInRange(lda, r, k);
      FlatInRange(lda, k, c);
      op.mul(A[Flat(lda, r, k)], B[Flat(lda, k, c)])
    }

    /** The entry plus the terms lo, ..., hi - 1 of its scalar product, added in that order. */
    function Part(r: nat, c: nat, lo: nat, hi: nat): D
      requires Valid() && r < lda && c < lda && hi <= lda
    {
      FlatInRange(lda, r, c);
      if hi <= lo then C[Flat(lda, r, c)] else op.add(Part(r, c, lo, hi - 1), Term(r, c, hi - 1))
    }

    /** The entry of C + A*B. */
    function Result(r: nat, c: nat): D
      requires Valid() && r < lda && c < lda
    {
      FlatInRange(lda, r, c);
      Dot(op, lda, A, B, r, c, C[Flat(lda, r, c)], lda)
    }

    lemma {:induction false} PartIsDot(r: nat, c: nat, n: nat)
      requires Valid() && r < lda && c < lda && n <= lda
      ensures Flat(lda, r, c) < |C| && Part(r, c, 0, n) == Dot(op, lda, A, B, r, c, C[Flat(lda, r, c)], n)
    {
      FlatInRange(lda, r, c);
      if n > 0 {
        PartIsDot(r, c, n - 1);
      }
    }
  }

  /** The terms that an entry has taken in; a foreign entry is neither read nor written. */
  datatype Span = Span(lo: nat, hi: nat) | Foreign

  const NONE := Span(0, 0)

  /** For every entry, the terms it has taken in. */
  type Spans = (nat, nat) -> Span

  ghost predicate Entry<D>(p: Problem<D>, m: seq<D>, r: nat, c: nat, s: Span)
    requires p.Valid() && r < p.lda && c < p.lda
  {
    if s.Foreign? then Flat(p.lda, r, c) < |m| && Flat(p.lda, r, c) < |p.C| && m[Flat(p.lda, r, c)] == p.C[Flat(p.lda, r, c)]
    else Flat(p.lda, r, c) < |m| && s.hi <= p.lda && m[Flat(p.lda, r, c)] == p.Part(r, c, s.lo, s.hi)
  }

  ghost predicate Holds<D>(p: Problem<D>, m: seq<D>, f: Spans) {
    p.Valid() && |m| == Size(p.lda) && forall r: nat, c: nat :: r < p.lda && c < p.lda ==> Entry(p, m, r, c, f(r, c))
  }

  /** The entries of a rectangle have taken in s, the others what they had. */
  function Over(f: Spans, r0: int, r1: int, c0: int, c1: int, s: Span): Spans {
    (r: nat, c: nat) => if r0 <= r < r1 && c0 <= c < c1 then s else f(r, c)
  }

  ghost predicate AllAre(f: Spans, r0: nat, r1: nat, c0: nat, c1: nat, s: Span) {
    forall r: nat, c: nat :: r0 <= r < r1 && c0 <= c < c1 ==> f(r, c) == s
  }

  /** The entries of row r from column c0 to c1 are not foreign. */
  ghost predicate Own(f: Spans, r: nat, c0: nat, c1: nat) { forall c: nat :: c0 <= c < c1 ==> f(r, c).Span? }

  lemma Recast<D>(p: Problem<D>, m: seq<D>, f: Spans, g: Spans)
    requires Holds(p, m, f)
    requires forall r: nat, c: nat :: r < p.lda && c < p.lda ==> f(r, c) == g(r, c)
    ensures Holds(p, m, g)
  {
    forall r: nat, c: nat | r < p.lda && c < p.lda ensures Entry(p, m, r, c, g(r, c)) {
      assert Entry(p, m, r, c, f(r, c));
    }
  }

  /** Columns from c to c1 join those before c. */
  lemma MoreColumns<D>(p: Problem<D>, m: seq<D>, f: Spans, r0: nat, r1: nat, c0: nat, c: nat, c1: nat, s: Span)
    requires c0 <= c <= c1 && Holds(p, m, Over(Over(f, r0, r1, c0, c, s), r0, r1, c, c1, s)) == true
    ensures Holds(p, m, Over(f, r0, r1, c0, c1, s)) == true
  {
    Recast(p, m, Over(Over(f, r0, r1, c0, c, s), r0, r1, c, c1, s), Over(f, r0, r1, c0, c1, s));
  }

  /** Rows from r to r1 join those before r. */
  lemma MoreRows<D>(p: Problem<D>, m: seq<D>, f: Spans, r0: nat, r: nat, r1: nat, c0: nat, c1: nat, s: Span)
    requires r0 <= r <= r1 && Holds(p, m, Over(Over(f, r0, r, c0, c1, s), r, r1, c0, c1, s)) == true
    ensures Holds(p, m, Over(f, r0, r1, c0, c1, s)) == true
  {
    Recast(p, m, Over(Over(f, r0, r, c0, c1, s), r, r1, c0, c1, s), Over(f, r0, r1, c0, c1, s));
  }

  lemma Initially<D>(p: Problem<D>)
    requires p.Valid()
    ensures Holds(p, p.C, (r: nat, c: nat) => Span(0, 0))
  {
    forall r: nat, c: nat | r < p.lda && c < p.lda ensures Entry(p, p.C, r, c, Span(0, 0)) {
      FlatInRange(p.lda, r, c);
    }
  }

  /** C[r, c], which has taken in what f says. */
  method Load<D>(p: Problem<D>, m: array<D>, r: nat, c: nat, ghost f: Spans) returns (v: D)
    requires Holds(p, m[..], f) && r < p.lda && c < p.lda && f(r, c).Span?
    ensures f(r, c).hi <= p.lda && v == p.Part(r, c, f(r, c).lo, f(r, c).hi)
  {
    assert Entry(p, m[..], r, c, f(r, c));
    v := m[Flat(p.lda, r, c)];
  }

  method Store<D>(p: Problem<D>, m: array<D>, r: nat, c: nat, v: D, ghost f: Spans, ghost s: Span)
    requires Holds(p, m[..], f) && r < p.lda && c < p.lda && f(r, c).Span? && s.Span? && s.hi <= p.lda && v == p.Part(r, c, s.lo, s.hi)
    modifies m
    ensures Holds(p, m[..], Over(f, r, r + 1, c, c + 1, s))
  {
    ghost var before := m[..];
    FlatInRange(p.lda, r, c);
    m[Flat(p.lda, r, c)] := v;
    ghost var g := Over(f, r, r + 1, c, c + 1, s);
    forall r': nat, c': nat | r' < p.lda && c' < p.lda ensures Entry(p, m[..], r', c', g(r', c')) {
      assert Entry(p, before, r', c', f(r', c'));
      if Flat(p.lda, r', c') == Flat(p.lda, r, c) {
        FlatInjective(p.lda, r', c', r, c);
      }
    }
  }

  lemma RoomForTile(i: nat, lda: nat)
    requires i % 8 == 0 && lda % 8 == 0 && i < lda
    ensures i + 8 <= lda && (i + 8) % 8 == 0 && lda % 4 == 0
  {
    var a, b := i / 8, lda / 8;
    assert i == 8 * a && lda == 8 * b;
    assert i + 8 == 8 * (a + 1) && lda == 4 * (2 * b);
  }

  // ----- dealing blocks of rows to cores -----

  /** The rows that a core works on: every ncores-th block of 16. */
  predicate Mine(r: nat, coreid: nat, ncores: nat)
    requires ncores > 0
  {
    Visited(r / 16, coreid, ncores)
  }

  /** The blocks of sixteen rows are dealt to the cores in turn. */
  lemma MineIs(r: nat, coreid: nat, ncores: nat)
    requires coreid < ncores
    ensures Mine(r, coreid, ncores) <==> r / 16 % ncores == coreid
  {
    var b := r / 16;
    VisitedIs(b, coreid, ncores);
    if b >= coreid && (b - coreid) % ncores == 0 {
      DivModUnique(b, ncores, (b - coreid) / ncores, coreid);
    }
    if b % ncores == coreid {
      DivModUnique(b - coreid, ncores, b / ncores, 0);
    }
  }

  function MineBelow(f: Spans, lda: nat, coreid: nat, ncores: nat, n: nat): Spans
    requires ncores > 0
  {
    (r: nat, c: nat) => if r / 16 < n && Mine(r, coreid, ncores) then Span(0, lda) else f(r, c)
  }

  function After(f: Spans, lda: nat, coreid: nat, ncores: nat): Spans
    requires ncores > 0
  {
    (r: nat, c: nat) => if Mine(r, coreid, ncores) then Span(0, lda) else f(r, c)
  }

  /** The rows of one core have taken in nothing; those of the others are none of its business. */
  function OwnSpans(coreid: nat, ncores: nat): Spans
    requires ncores > 0
  {
    (r: nat, c: nat) => if Mine(r, coreid, ncores) then NONE else Foreign
  }

  /** A core has added its rows of A*B to those of C, each entry to its own, and left all other rows alone. */
  ghost predicate OwnRowsDone<D>(p: Problem<D>, m: seq<D>, coreid: nat, ncores: nat) {
    && p.Valid() && ncores > 0 && |m| == Size(p.lda)
    && forall r: nat, c: nat :: r < p.lda && c < p.lda ==>
         && Flat(p.lda, r, c) < |m|
         && m[Flat(p.lda, r, c)] == if Mine(r, coreid, ncores) then p.Result(r, c) else p.C[Flat(p.lda, r, c)]
  }

  lemma InitiallyOwn<D>(p: Problem<D>, coreid: nat, ncores: nat)
    requires p.Valid() && ncores > 0
    ensures Holds(p, p.C, OwnSpans(coreid, ncores))
  {
    forall r: nat, c: nat | r < p.lda && c < p.lda ensures Entry(p, p.C, r, c, OwnSpans(coreid, ncores)(r, c)) {
      FlatInRange(p.lda, r, c);
    }
  }

  lemma AfterIsDone<D>(p: Problem<D>, m: seq<D>, coreid: nat, ncores: nat)
    requires ncores > 0 && Holds(p, m, After(OwnSpans(coreid, ncores), p.lda, coreid, ncores))
    ensures OwnRowsDone(p, m, coreid, ncores)
  {
    forall r: nat, c: nat | r < p.lda && c < p.lda
      ensures Flat(p.lda, r, c) < |m|
      ensures m[Flat(p.lda, r, c)] == if Mine(r, coreid, ncores) then p.Result(r, c) else p.C[Flat(p.lda, r, c)]
    {
      assert Entry(p, m, r, c, After(OwnSpans(coreid, ncores), p.lda, coreid, ncores)(r, c));
      p.PartIsDot(r, c, p.lda);
    }
  }

  /** Every core is called once. */
  ghost predicate EachOnce(order: seq<nat>, ncores: nat) {
    && ncores > 0
    && (forall i :: 0 <= i < |order| ==> order[i] < ncores)
    && (forall i, j :: 0 <= i < j < |order| ==> order[i] != order[j])
    && (forall x: nat :: x < ncores ==> x in order)
  }

  /** Row r belongs to one of the first n cores called. */
  predicate Dealt(r: nat, order: seq<nat>, n: nat, ncores: nat)
    requires ncores > 0 && n <= |order|
  {
    n > 0 && (Mine(r, order[n - 1], ncores) || Dealt(r, order, n - 1, ncores))
  }

  function DealtSpans(lda: nat, order: seq<nat>, n: nat, ncores: nat): Spans
    requires ncores > 0 && n <= |order|
  {
    (r: nat, c: nat) => if Dealt(r, order, n, ncores) then Span(0, lda) else NONE
  }

  lemma {:induction false} NotDealtTwice(r: nat, order: seq<nat>, n: nat, ncores: nat)
    requires EachOnce(order, ncores) && n < |order| && Mine(r, order[n], ncores)
    ensures !Dealt(r, order, n, ncores)
  {
    var x := OneOwner(r / 16, ncores);
    NotDealtBelow(r, order, n, n, ncores, x);
  }

  lemma {:induction false} NotDealtBelow(r: nat, order: seq<nat>, k: nat, n: nat, ncores: nat, x: nat)
    requires EachOnce(order, ncores) && k <= n < |order| && Mine(r, order[n], ncores)
    requires forall q: nat :: q < ncores && Visited(r / 16, q, ncores) ==> q == x
    ensures !Dealt(r, order, k, ncores)
  {
    if k > 0 {
      NotDealtBelow(r, order, k - 1, n, ncores, x);
      assert order[k - 1] != order[n];
    }
  }

  lemma {:induction false} DealtByOwner(r: nat, order: seq<nat>, i: nat, n: nat, ncores: nat)
    requires ncores > 0 && i < n <= |order| && Mine(r, order[i], ncores)
    ensures Dealt(r, order, n, ncores)
  {
    if i < n - 1 {
      DealtByOwner(r, order, i, n - 1, ncores);
    }
  }

  ghost predicate IsResult<D>(p: Problem<D>, m: seq<D>) {
    p.Valid() && |m| == Size(p.lda)
    && forall r: nat, c: nat :: r < p.lda && c < p.lda ==> Flat(p.lda, r, c) < |m| && m[Flat(p.lda, r, c)] == p.Result(r, c)
  }

  lemma AllDealt<D>(p: Problem<D>, m: seq<D>, order: seq<nat>, ncores: nat)
    requires EachOnce(order, ncores) && Holds(p, m, DealtSpans(p.lda, order, |order|, ncores))
    ensures IsResult(p, m)
  {
    forall r: nat, c: nat | r < p.lda && c < p.lda
      ensures Flat(p.lda, r, c) < |m| && m[Flat(p.lda, r, c)] == p.Result(r, c)
    {
      var x := OneOwner(r / 16, ncores);
      assert x in order;
      var i :| 0 <= i < |order| && order[i] == x;
      DealtByOwner(r, order, i, |order|, ncores);
      assert Entry(p, m, r, c, DealtSpans(p.lda, order, |order|, ncores)(r, c));
      p.PartIsDot(r, c, p.lda);
    }
  }
}
