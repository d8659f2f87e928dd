/**
 * The kernel that passes twice over half of the terms, upwards on core 0 and downwards on core 1. It adds the terms in
 * another order than the definition, so addition must be associative and commutative, as it is modulo a power of two.
 */
module BhMatMul {
  import opened Matrices
  import opened Tiles

  /** Addition of x, y and z in another order. */
  ghost predicate Law<D>(op: Arithmetic<D>, x: D, y: D, z: D) {
    op.add(x, y) == op.add(y, x) && op.add(op.add(x, y), z) == op.add(x, op.add(y, z))
  }

  ghost predicate Commutes<D(!new)>(op: Arithmetic<D>) {
    forall x, y, z :: Law(op, x, y, z)
  }

  /** A term may as well be added at the low end. */
  lemma {:induction false} AddedBelow<D(!new)>(p: Problem<D>, r: nat, c: nat, lo: nat, hi: nat)
    requires p.Valid() && r < p.lda && c < p.lda && lo < hi <= p.lda && Commutes(p.op)
    ensures p.op.add(p.Part(r, c, lo + 1, hi), p.Term(r, c, lo)) == p.Part(r, c, lo, hi)
  {
    if lo + 1 < hi {
      AddedBelow(p, r, c, lo, hi - 1);
      var s, t, u := p.Part(r, c, lo + 1, hi - 1), p.Term(r, c, hi - 1), p.Term(r, c, lo);
      assert Law(p.op, s, t, u) && Law(p.op, t, u, u) && Law(p.op, s, u, t);
    } else {
      assert p.Part(r, c, lo, hi - 1) == p.Part(r, c, lo + 1, hi);
    }
  }

  /** b is the position of B[k, c]. */
  predicate At(lda: nat, k: nat, c: nat, b: nat) { b == Flat(lda, k, c) }

  lemma Along(lda: nat, k: nat, c: nat, b: nat, d: nat)
    requires At(lda, k, c, b)
    ensures At(lda, k, c + d, b + d) == true
  {
    FlatShift(lda, k, c, d);
  }

  /** One entry takes in the terms k and k + 1. */
  method AddUp<D(!new)>(p: Problem<D>, r: nat, c: nat, k: nat, a0: D, a1: D, b0: nat, b1: nat, s: D) returns (s': D)
    requires p.Valid() && Commutes(p.op) && r < p.lda && c < p.lda && k + 2 <= p.lda && s == p.Part(r, c, 0, k)
    requires Flat(p.lda, r, k) < |p.A| && a0 == p.A[Flat(p.lda, r, k)]
    requires Flat(p.lda, r, k + 1) < |p.A| && a1 == p.A[Flat(p.lda, r, k + 1)]
    requires At(p.lda, k, c, b0) == true && At(p.lda, k + 1, c, b1) == true
    ensures s' == p.Part(r, c, 0, k + 2)
  {
    FlatInRange(p.lda, k, c);
    FlatInRange(p.lda, k + 1, c);
    var t0, t1 := p.op.mul(a0, p.B[b0]), p.op.mul(a1, p.B[b1]);
    s' := p.op.add(s, p.op.add(t0, t1));
    assert Law(p.op, s, t0, t1);
    assert t0 == p.Term(r, c, k) && t1 == p.Term(r, c, k + 1);
    assert p.Part(r, c, 0, k + 1) == p.op.add(s, t0);
  }

  /** One entry takes in the terms k and k - 1, below those it has. */
  method AddDown<D(!new)>(p: Problem<D>, r: nat, c: nat, k: nat, a0: D, a1: D, s: D) returns (s': D)
    requires p.Valid() && Commutes(p.op) && r < p.lda && c < p.lda && 0 < k < p.lda && s == p.Part(r, c, k + 1, p.lda)
    requires Flat(p.lda, r, k) < |p.A| && a0 == p.A[Flat(p.lda, r, k)]
    requires Flat(p.lda, r, k - 1) < |p.A| && a1 == p.A[Flat(p.lda, r, k - 1)]
    ensures s' == p.Part(r, c, k - 1, p.lda)
  {
    FlatInRange(p.lda, k, c);
    FlatInRange(p.lda, k - 1, c);
    var t0, t1 := p.op.mul(a0, p.B[Flat(p.lda, k, c)]), p.op.mul(a1, p.B[Flat(p.lda, k - 1, c)]);
    s' := p.op.add(s, p.op.add(t0, t1));
    AddedBelow(p, r, c, k, p.lda);
    AddedBelow(p, r, c, k - 1, p.lda);
    assert Law(p.op, s, t0, t1);
    assert t0 == p.Term(r, c, k) && t1 == p.Term(r, c, k - 1);
  }

  /** Four entries of row r that have taken in the terms lo, ..., hi - 1. */
  ghost predicate Sums<D>(p: Problem<D>, r: nat, x1: nat, x2: nat, x3: nat, x4: nat, lo: nat, hi: nat, c1: D, c2: D, c3: D, c4: D) {
    && p.Valid() && r < p.lda && x1 < p.lda && x2 < p.lda && x3 < p.lda && x4 < p.lda && hi <= p.lda
    && c1 == p.Part(r, x1, lo, hi) && c2 == p.Part(r, x2, lo, hi) && c3 == p.Part(r, x3, lo, hi) && c4 == p.Part(r, x4, lo, hi)
  }

  method LoadFour<D>(p: Problem<D>, m: array<D>, r: nat, x1: nat, x2: nat, x3: nat, x4: nat, ghost f: Spans, ghost s: Span)
    returns (c1: D, c2: D, c3: D, c4: D)
    requires Holds(p, m[..], f) == true && r < p.lda && x1 < p.lda && x2 < p.lda && x3 < p.lda && x4 < p.lda
    requires f(r, x1) == f(r, x2) == f(r, x3) == f(r, x4) == s && s.Span?
    ensures Sums(p, r, x1, x2, x3, x4, s.lo, s.hi, c1, c2, c3, c4) == true
  {
    c1 := Load(p, m, r, x1, f);
    c2 := Load(p, m, r, x2, f);
    c3 := Load(p, m, r, x3, f);
    c4 := Load(p, m, r, x4, f);
  }

  method StoreFour<D>(p: Problem<D>, m: array<D>, r: nat, x1: nat, x2: nat, x3: nat, x4: nat, c1: D, c2: D, c3: D, c4: D,
                      ghost f: Spans, ghost s: Span, ghost low: nat)
    requires Holds(p, m[..], f) == true && s.Span? && Sums(p, r, x1, x2, x3, x4, s.lo, s.hi, c1, c2, c3, c4)
    requires Own(f, r, low, low + 4)
    requires (x1 == low && x2 == low + 1 && x3 == low + 2 && x4 == low + 3)
             || (x4 == low && x3 == low + 1 && x2 == low + 2 && x1 == low + 3)
    modifies m
    ensures Holds(p, m[..], Over(f, r, r + 1, low, low + 4, s)) == true
  {
    Store(p, m, r, x1, c1, f, s);
    ghost var g := Over(f, r, r + 1, x1, x1 + 1, s);
    Store(p, m, r, x2, c2, g, s);
    g := Over(g, r, r + 1, x2, x2 + 1, s);
    Store(p, m, r, x3, c3, g, s);
    g := Over(g, r, r + 1, x3, x3 + 1, s);
    Store(p, m, r, x4, c4, g, s);
    Recast(p, m[..], Over(g, r, r + 1, x4, x4 + 1, s), Over(f, r, r + 1, low, low + 4, s));
  }

  /** m*lda/2 for a half-pass m. */
  function Half(m: nat, lda: nat): nat
    requires m <= 2
  {
    if m == 0 then 0 else if m == 1 then lda / 2 else lda
  }

  lemma HalfIs(m: nat, lda: nat, i: nat)
    requires m <= 2 && lda % 2 == 0
    ensures Half(m, lda) == m * lda / 2
    ensures m * lda * lda / 2 + i == Flat(lda, Half(m, lda), i)
  {
    FlatIsProduct(lda, Half(m, lda), i);
    var h := lda / 2;
    assert lda == 2 * h;
    if m == 1 {
      assert lda * lda == 2 * (h * lda);
    } else if m == 2 {
      assert 2 * lda * lda == 2 * (lda * lda);
    }
  }

  // ----- core 0: upwards -----

  method AddFourUp<D(!new)>(p: Problem<D>, r: nat, i: nat, k: nat, a0: D, a1: D, b0: nat, b1: nat, s1: D, s2: D, s3: D, s4: D)
    returns (c1: D, c2: D, c3: D, c4: D)
    requires Commutes(p.op) == true && Sums(p, r, i, i + 1, i + 2, i + 3, 0, k, s1, s2, s3, s4) && k + 2 <= p.lda
    requires Flat(p.lda, r, k) < |p.A| && a0 == p.A[Flat(p.lda, r, k)]
    requires Flat(p.lda, r, k + 1) < |p.A| && a1 == p.A[Flat(p.lda, r, k + 1)]
    requires At(p.lda, k, i, b0) == true && At(p.lda, k + 1, i, b1) == true
    ensures Sums(p, r, i, i + 1, i + 2, i + 3, 0, k + 2, c1, c2, c3, c4) == true
  {
    FourAlong(p.lda, k, i, b0);
    FourAlong(p.lda, k + 1, i, b1);
    c1 := AddUp(p, r, i, k, a0, a1, b0, b1, s1);
    c2 := AddUp(p, r, i + 1, k, a0, a1, b0 + 1, b1 + 1, s2);
    c3 := AddUp(p, r, i + 2, k, a0, a1, b0 + 2, b1 + 2, s3);
    c4 := AddUp(p, r, i + 3, k, a0, a1, b0 + 3, b1 + 3, s4);
  }

  lemma FourAlong(lda: nat, k: nat, i: nat, b: nat)
    requires At(lda, k, i, b)
    ensures At(lda, k, i + 1, b + 1) == true && At(lda, k, i + 2, b + 2) == true
    ensures At(lda, k, i + 3, b + 3) == true && At(lda, k, i + 4, b + 4) == true
  {
    Along(lda, k, i, b, 1);
    Along(lda, k, i, b, 2);
    Along(lda, k, i, b, 3);
    Along(lda, k, i, b, 4);
  }

  /** Eight columns from i on, the terms of half-pass h. */
  method SumUp<D(!new)>(p: Problem<D>, j: nat, i: nat, h: nat, s1: D, s2: D, s3: D, s4: D, s5: D, s6: D, s7: D, s8: D)
    returns (c1: D, c2: D, c3: D, c4: D, c5: D, c6: D, c7: D, c8: D)
    requires Commutes(p.op) == true && p.lda % 4 == 0 && h < 2
    requires Sums(p, j, i, i + 1, i + 2, i + 3, 0, Half(h, p.lda), s1, s2, s3, s4) == true
    requires Sums(p, j, i + 4, i + 5, i + 6, i + 7, 0, Half(h, p.lda), s5, s6, s7, s8) == true
    ensures Sums(p, j, i, i + 1, i + 2, i + 3, 0, Half(h + 1, p.lda), c1, c2, c3, c4) == true
    ensures Sums(p, j, i + 4, i + 5, i + 6, i + 7, 0, Half(h + 1, p.lda), c5, c6, c7, c8) == true
  {
    HalvesAreEven(h, p.lda);
    var iB0: nat := RowStart(h, p.lda, i);
    c1, c2, c3, c4, c5, c6, c7, c8 :=
      TermsUp(p, j, i, Half(h, p.lda), Half(h + 1, p.lda), iB0, iB0 + p.lda, s1, s2, s3, s4, s5, s6, s7, s8);
  }

  method TermsUp<D(!new)>(p: Problem<D>, j: nat, i: nat, lo: nat, end: nat, b0: nat, b1: nat,
                          s1: D, s2: D, s3: D, s4: D, s5: D, s6: D, s7: D, s8: D)
    returns (c1: D, c2: D, c3: D, c4: D, c5: D, c6: D, c7: D, c8: D)
    requires Commutes(p.op) == true && lo <= end <= p.lda && lo % 2 == 0 && end % 2 == 0
    requires At(p.lda, lo, i, b0) == true && At(p.lda, lo + 1, i, b1) == true
    requires Sums(p, j, i, i + 1, i + 2, i + 3, 0, lo, s1, s2, s3, s4) == true
    requires Sums(p, j, i + 4, i + 5, i + 6, i + 7, 0, lo, s5, s6, s7, s8) == true
    ensures Sums(p, j, i, i + 1, i + 2, i + 3, 0, end, c1, c2, c3, c4) == true
    ensures Sums(p, j, i + 4, i + 5, i + 6, i + 7, 0, end, c5, c6, c7, c8) == true
  {
    c1, c2, c3, c4, c5, c6, c7, c8 := s1, s2, s3, s4, s5, s6, s7, s8;
    var k: nat, iB0: nat, iB1: nat := lo, b0, b1;
    while k < end
      invariant k <= end && k % 2 == 0
      invariant At(p.lda, k, i, iB0) == true && At(p.lda, k + 1, i, iB1) == true
      invariant Sums(p, j, i, i + 1, i + 2, i + 3, 0, k, c1, c2, c3, c4) == true
      invariant Sums(p, j, i + 4, i + 5, i + 6, i + 7, 0, k, c5, c6, c7, c8) == true
      decreases end - k
    {
      c1, c2, c3, c4, c5, c6, c7, c8 := AddColumns(p, j, i, k, iB0, iB1, c1, c2, c3, c4, c5, c6, c7, c8);
      iB0, iB1 := Advance(p.lda, k, i, iB0, iB1);
      k := k + 2;
    }
  }

  method RowStart(h: nat, lda: nat, i: nat) returns (iB0: nat)
    requires h < 2 && lda % 2 == 0
    ensures At(lda, Half(h, lda), i, iB0) && At(lda, Half(h, lda) + 1, i, iB0 + lda)
  {
    HalfIs(h, lda, i);
    iB0 := h * lda * lda / 2 + i;
  }

  method Advance(lda: nat, k: nat, i: nat, b0: nat, b1: nat) returns (iB0: nat, iB1: nat)
    requires At(lda, k, i, b0) && At(lda, k + 1, i, b1)
    ensures At(lda, k + 2, i, iB0) == true && At(lda, k + 3, i, iB1) == true
  {
    TwoRowsOn(lda, k, i, b0);
    TwoRowsOn(lda, k + 1, i, b1);
    iB0, iB1 := b0 + 2 * lda, b1 + 2 * lda;
  }

  lemma TwoRowsOn(lda: nat, k: nat, i: nat, b: nat)
    requires At(lda, k, i, b)
    ensures At(lda, k + 2, i, b + 2 * lda) == true
  {
    assert Flat(lda, k + 1, i) == b + lda;
  }

  lemma HalvesAreEven(h: nat, lda: nat)
    requires h < 2 && lda % 4 == 0
    ensures Half(h, lda) <= Half(h + 1, lda) <= lda && Half(h, lda) % 2 == 0 && Half(h + 1, lda) % 2 == 0 && lda % 2 == 0
  {
  }

  method AddColumns<D(!new)>(p: Problem<D>, j: nat, i: nat, k: nat, iB0: nat, iB1: nat,
                             s1: D, s2: D, s3: D, s4: D, s5: D, s6: D, s7: D, s8: D)
    returns (c1: D, c2: D, c3: D, c4: D, c5: D, c6: D, c7: D, c8: D)
    requires Commutes(p.op) == true && k + 2 <= p.lda && At(p.lda, k, i, iB0) == true && At(p.lda, k + 1, i, iB1) == true
    requires Sums(p, j, i, i + 1, i + 2, i + 3, 0, k, s1, s2, s3, s4)
    requires Sums(p, j, i + 4, i + 5, i + 6, i + 7, 0, k, s5, s6, s7, s8) == true
    ensures Sums(p, j, i, i + 1, i + 2, i + 3, 0, k + 2, c1, c2, c3, c4) == true
    ensures Sums(p, j, i + 4, i + 5, i + 6, i + 7, 0, k + 2, c5, c6, c7, c8) == true
  {
    FlatInRange(p.lda, j, k);
    FlatInRange(p.lda, j, k + 1);
    FourAlong(p.lda, k, i, iB0);
    FourAlong(p.lda, k + 1, i, iB1);
    var tempA0, tempA1 := p.A[Flat(p.lda, j, k)], p.A[Flat(p.lda, j, k + 1)];
    c1, c2, c3, c4 := AddFourUp(p, j, i, k, tempA0, tempA1, iB0, iB1, s1, s2, s3, s4);
    c5, c6, c7, c8 := AddFourUp(p, j, i + 4, k, tempA0, tempA1, iB0 + 4, iB1 + 4, s5, s6, s7, s8);
  }

  method TileUp<D(!new)>(p: Problem<D>, out: array<D>, j: nat, i: nat, h: nat, ghost f: Spans)
    requires Holds(p, out[..], f) == true && Commutes(p.op) == true && p.lda % 4 == 0 && h < 2 && j < p.lda && i + 8 <= p.lda
    requires AllAre(f, j, j + 1, i, i + 8, Span(0, Half(h, p.lda)))
    modifies out
    ensures Holds(p, out[..], Over(f, j, j + 1, i, i + 8, Span(0, Half(h + 1, p.lda)))) == true
  {
    ghost var s, t := Span(0, Half(h, p.lda)), Span(0, Half(h + 1, p.lda));
    var c1, c2, c3, c4 := LoadFour(p, out, j, i, i + 1, i + 2, i + 3, f, s);
    var c5, c6, c7, c8 := LoadFour(p, out, j, i + 4, i + 5, i + 6, i + 7, f, s);
    c1, c2, c3, c4, c5, c6, c7, c8 := SumUp(p, j, i, h, c1, c2, c3, c4, c5, c6, c7, c8);
    StoreEight(p, out, j, i, c1, c2, c3, c4, c5, c6, c7, c8, f, t);
  }

  method StoreEight<D>(p: Problem<D>, out: array<D>, j: nat, i: nat,
                       c1: D, c2: D, c3: D, c4: D, c5: D, c6: D, c7: D, c8: D, ghost f: Spans, ghost t: Span)
    requires Holds(p, out[..], f) == true && t.Span? && Own(f, j, i, i + 8)
    requires Sums(p, j, i, i + 1, i + 2, i + 3, t.lo, t.hi, c1, c2, c3, c4) == true
    requires Sums(p, j, i + 4, i + 5, i + 6, i + 7, t.lo, t.hi, c5, c6, c7, c8) == true
    modifies out
    ensures Holds(p, out[..], Over(f, j, j + 1, i, i + 8, t)) == true
  {
    StoreFour(p, out, j, i, i + 1, i + 2, i + 3, c1, c2, c3, c4, f, t, i);
    StoreFour(p, out, j, i + 4, i + 5, i + 6, i + 7, c5, c6, c7, c8, Over(f, j, j + 1, i, i + 4, t), t, i + 4);
    MoreColumns(p, out[..], f, j, j + 1, i, i + 4, i + 8, t);
  }

  /** Row j. */
  method RowUp<D(!new)>(p: Problem<D>, out: array<D>, j: nat, h: nat, ghost f: Spans)
    requires Holds(p, out[..], f) == true && Commutes(p.op) == true && p.lda % 8 == 0 && h < 2 && j < p.lda
    requires AllAre(f, j, j + 1, 0, p.lda, Span(0, Half(h, p.lda)))
    modifies out
    ensures Holds(p, out[..], Over(f, j, j + 1, 0, p.lda, Span(0, Half(h + 1, p.lda)))) == true
  {
    ghost var t := Span(0, Half(h + 1, p.lda));
    var i := 0;
    Recast(p, out[..], f, Over(f, j, j + 1, 0, i, t));
    while i < p.lda
      invariant i <= p.lda && i % 8 == 0 && Holds(p, out[..], Over(f, j, j + 1, 0, i, t)) == true
    {
      ghost var g := Over(f, j, j + 1, 0, i, t);
      RoomForTile(i, p.lda);
      TileUp(p, out, j, i, h, g);
      MoreColumns(p, out[..], f, j, j + 1, 0, i, i + 8, t);
      i := i + 8;
    }
  }

  method HalfPassUp<D(!new)>(p: Problem<D>, out: array<D>, h: nat, ghost f: Spans)
    requires Holds(p, out[..], f) == true && Commutes(p.op) == true && p.lda % 8 == 0 && h < 2
    requires AllAre(f, 0, p.lda / 2, 0, p.lda, Span(0, Half(h, p.lda)))
    modifies out
    ensures Holds(p, out[..], Over(f, 0, p.lda / 2, 0, p.lda, Span(0, Half(h + 1, p.lda)))) == true
  {
    ghost var t := Span(0, Half(h + 1, p.lda));
    var j := 0;
    Recast(p, out[..], f, Over(f, 0, j, 0, p.lda, t));
    while j < p.lda / 2
      invariant j <= p.lda / 2 && Holds(p, out[..], Over(f, 0, j, 0, p.lda, t)) == true
    {
      ghost var g := Over(f, 0, j, 0, p.lda, t);
      RowUp(p, out, j, h, g);
      MoreRows(p, out[..], f, 0, j, j + 1, 0, p.lda, t);
      j := j + 1;
    }
  }

  /** The upper half of the rows, on core 0. */
  method Upwards<D(!new)>(p: Problem<D>, out: array<D>, ghost f: Spans)
    requires Holds(p, out[..], f) == true && Commutes(p.op) == true && p.lda % 8 == 0 && AllAre(f, 0, p.lda / 2, 0, p.lda, NONE)
    modifies out
    ensures Holds(p, out[..], Over(f, 0, p.lda / 2, 0, p.lda, Span(0, p.lda))) == true
  {
    Recast(p, out[..], f, Over(f, 0, p.lda / 2, 0, p.lda, Span(0, Half(0, p.lda))));
    for h := 0 to 2
      invariant Holds(p, out[..], Over(f, 0, p.lda / 2, 0, p.lda, Span(0, Half(h, p.lda)))) == true
    {
      ghost var g := Over(f, 0, p.lda / 2, 0, p.lda, Span(0, Half(h, p.lda)));
      HalfPassUp(p, out, h, g);
      Recast(p, out[..], Over(g, 0, p.lda / 2, 0, p.lda, Span(0, Half(h + 1, p.lda))),
             Over(f, 0, p.lda / 2, 0, p.lda, Span(0, Half(h + 1, p.lda))));
    }
  }

  // ----- core 1: downwards -----

  method AddFourDown<D(!new)>(p: Problem<D>, r: nat, i: nat, k: nat, a0: D, a1: D, s1: D, s2: D, s3: D, s4: D)
    returns (c1: D, c2: D, c3: D, c4: D)
    requires Commutes(p.op) == true && i >= 3 && Sums(p, r, i, i - 1, i - 2, i - 3, k + 1, p.lda, s1, s2, s3, s4) && 0 < k < p.lda
    requires Flat(p.lda, r, k) < |p.A| && a0 == p.A[Flat(p.lda, r, k)]
    requires Flat(p.lda, r, k - 1) < |p.A| && a1 == p.A[Flat(p.lda, r, k - 1)]
    ensures Sums(p, r, i, i - 1, i - 2, i - 3, k - 1, p.lda, c1, c2, c3, c4) == true
  {
    c1 := AddDown(p, r, i, k, a0, a1, s1);
    c2 := AddDown(p, r, i - 1, k, a0, a1, s2);
    c3 := AddDown(p, r, i - 2, k, a0, a1, s3);
    c4 := AddDown(p, r, i - 3, k, a0, a1, s4);
  }

  method AddColumnsDown<D(!new)>(p: Problem<D>, j: nat, i: nat, k: nat,
                                 s1: D, s2: D, s3: D, s4: D, s5: D, s6: D, s7: D, s8: D)
    returns (c1: D, c2: D, c3: D, c4: D, c5: D, c6: D, c7: D, c8: D)
    requires Commutes(p.op) == true && 7 <= i && 0 < k < p.lda && j < p.lda && p.Valid()
    requires Sums(p, j, i, i - 1, i - 2, i - 3, k + 1, p.lda, s1, s2, s3, s4) == true
    requires Sums(p, j, i - 4, i - 5, i - 6, i - 7, k + 1, p.lda, s5, s6, s7, s8) == true
    ensures Sums(p, j, i, i - 1, i - 2, i - 3, k - 1, p.lda, c1, c2, c3, c4) == true
    ensures Sums(p, j, i - 4, i - 5, i - 6, i - 7, k - 1, p.lda, c5, c6, c7, c8) == true
  {
    FlatInRange(p.lda, j, k);
    FlatInRange(p.lda, j, k - 1);
    var tempA0, tempA1 := p.A[Flat(p.lda, j, k)], p.A[Flat(p.lda, j, k - 1)];
    c1, c2, c3, c4 := AddFourDown(p, j, i, k, tempA0, tempA1, s1, s2, s3, s4);
    c5, c6, c7, c8 := AddFourDown(p, j, i - 4, k, tempA0, tempA1, s5, s6, s7, s8);
  }

  /** Eight columns from i down, the terms of half-pass h. */
  method SumDown<D(!new)>(p: Problem<D>, j: nat, i: nat, h: nat, s1: D, s2: D, s3: D, s4: D, s5: D, s6: D, s7: D, s8: D)
    returns (c1: D, c2: D, c3: D, c4: D, c5: D, c6: D, c7: D, c8: D)
    requires Commutes(p.op) == true && p.lda % 4 == 0 && 0 < h <= 2 && 7 <= i && j < p.lda && p.Valid()
    requires Sums(p, j, i, i - 1, i - 2, i - 3, Half(h, p.lda), p.lda, s1, s2, s3, s4) == true
    requires Sums(p, j, i - 4, i - 5, i - 6, i - 7, Half(h, p.lda), p.lda, s5, s6, s7, s8) == true
    ensures Sums(p, j, i, i - 1, i - 2, i - 3, Half(h - 1, p.lda), p.lda, c1, c2, c3, c4) == true
    ensures Sums(p, j, i - 4, i - 5, i - 6, i - 7, Half(h - 1, p.lda), p.lda, c5, c6, c7, c8) == true
  {
    HalvesAreEven(h - 1, p.lda);
    c1, c2, c3, c4, c5, c6, c7, c8 :=
      TermsDown(p, j, i, Half(h, p.lda), Half(h - 1, p.lda), s1, s2, s3, s4, s5, s6, s7, s8);
  }

  method TermsDown<D(!new)>(p: Problem<D>, j: nat, i: nat, hi: nat, end: nat,
                            s1: D, s2: D, s3: D, s4: D, s5: D, s6: D, s7: D, s8: D)
    returns (c1: D, c2: D, c3: D, c4: D, c5: D, c6: D, c7: D, c8: D)
    requires Commutes(p.op) == true && end <= hi <= p.lda && hi % 2 == 0 && end % 2 == 0 && 7 <= i && j < p.lda && p.Valid()
    requires Sums(p, j, i, i - 1, i - 2, i - 3, hi, p.lda, s1, s2, s3, s4) == true
    requires Sums(p, j, i - 4, i - 5, i - 6, i - 7, hi, p.lda, s5, s6, s7, s8) == true
    ensures Sums(p, j, i, i - 1, i - 2, i - 3, end, p.lda, c1, c2, c3, c4) == true
    ensures Sums(p, j, i - 4, i - 5, i - 6, i - 7, end, p.lda, c5, c6, c7, c8) == true
  {
    c1, c2, c3, c4, c5, c6, c7, c8 := s1, s2, s3, s4, s5, s6, s7, s8;
    var k := hi - 1;
    ghost var n := hi;
    while k >= end
      invariant end <= n <= hi && n % 2 == 0 && k == n - 1
      invariant Sums(p, j, i, i - 1, i - 2, i - 3, n, p.lda, c1, c2, c3, c4) == true
      invariant Sums(p, j, i - 4, i - 5, i - 6, i - 7, n, p.lda, c5, c6, c7, c8) == true
      decreases k - end
    {
      c1, c2, c3, c4, c5, c6, c7, c8 := AddColumnsDown(p, j, i, k, c1, c2, c3, c4, c5, c6, c7, c8);
      k := k - 2;
      n := n - 2;
    }
  }

  method TileDown<D(!new)>(p: Problem<D>, out: array<D>, j: nat, i: nat, h: nat, ghost f: Spans)
    requires Holds(p, out[..], f) == true && Commutes(p.op) == true && p.lda % 4 == 0 && 0 < h <= 2 && j < p.lda && 7 <= i < p.lda
    requires AllAre(f, j, j + 1, i - 7, i + 1, Span(Half(h, p.lda), p.lda))
    modifies out
    ensures Holds(p, out[..], Over(f, j, j + 1, i - 7, i + 1, Span(Half(h - 1, p.lda), p.lda))) == true
  {
    ghost var s, t := Span(Half(h, p.lda), p.lda), Span(Half(h - 1, p.lda), p.lda);
    var c1, c2, c3, c4 := LoadFour(p, out, j, i, i - 1, i - 2, i - 3, f, s);
    var c5, c6, c7, c8 := LoadFour(p, out, j, i - 4, i - 5, i - 6, i - 7, f, s);
    c1, c2, c3, c4, c5, c6, c7, c8 := SumDown(p, j, i, h, c1, c2, c3, c4, c5, c6, c7, c8);
    StoreFour(p, out, j, i, i - 1, i - 2, i - 3, c1, c2, c3, c4, f, t, i - 3);
    StoreFour(p, out, j, i - 4, i - 5, i - 6, i - 7, c5, c6, c7, c8, Over(f, j, j + 1, i - 3, i + 1, t), t, i - 7);
    Recast(p, out[..], Over(Over(f, j, j + 1, i - 3, i + 1, t), j, j + 1, i - 7, i - 3, t), Over(f, j, j + 1, i - 7, i + 1, t));
  }

  method RowDown<D(!new)>(p: Problem<D>, out: array<D>, j: nat, h: nat, ghost f: Spans)
    requires Holds(p, out[..], f) == true && Commutes(p.op) == true && p.lda % 8 == 0 && 0 < h <= 2 && j < p.lda
    requires AllAre(f, j, j + 1, 0, p.lda, Span(Half(h, p.lda), p.lda))
    modifies out
    ensures Holds(p, out[..], Over(f, j, j + 1, 0, p.lda, Span(Half(h - 1, p.lda), p.lda))) == true
  {
    ghost var t := Span(Half(h - 1, p.lda), p.lda);
    var i := p.lda - 1;
    Recast(p, out[..], f, Over(f, j, j + 1, i + 1, p.lda, t));
    while i >= 0
      invariant -1 <= i < p.lda && (i + 1) % 8 == 0 && Holds(p, out[..], Over(f, j, j + 1, i + 1, p.lda, t)) == true
    {
      ghost var g := Over(f, j, j + 1, i + 1, p.lda, t);
      RoomBelow(i + 1, p.lda);
      TileDown(p, out, j, i, h, g);
      i := i - 8;
      Recast(p, out[..], Over(g, j, j + 1, i + 1, i + 9, t), Over(f, j, j + 1, i + 1, p.lda, t));
    }
  }

  lemma RoomBelow(i: nat, lda: nat)
    requires i % 8 == 0 && lda % 8 == 0 && i > 0
    ensures i >= 8 && (i - 8) % 8 == 0 && lda % 4 == 0
  {
    var a, b := i / 8, lda / 8;
    assert i == 8 * a && lda == 8 * b;
    assert i - 8 == 8 * (a - 1) && lda == 4 * (2 * b);
  }

  method HalfPassDown<D(!new)>(p: Problem<D>, out: array<D>, h: nat, ghost f: Spans)
    requires Holds(p, out[..], f) == true && Commutes(p.op) == true && p.lda % 8 == 0 && 0 < h <= 2
    requires AllAre(f, p.lda / 2, p.lda, 0, p.lda, Span(Half(h, p.lda), p.lda))
    modifies out
    ensures Holds(p, out[..], Over(f, p.lda / 2, p.lda, 0, p.lda, Span(Half(h - 1, p.lda), p.lda))) == true
  {
    ghost var t := Span(Half(h - 1, p.lda), p.lda);
    var j := p.lda - 1;
    Recast(p, out[..], f, Over(f, j + 1, p.lda, 0, p.lda, t));
    while j >= p.lda / 2
      invariant p.lda / 2 - 1 <= j < p.lda && Holds(p, out[..], Over(f, j + 1, p.lda, 0, p.lda, t)) == true
    {
      ghost var g := Over(f, j + 1, p.lda, 0, p.lda, t);
      RowDown(p, out, j, h, g);
      j := j - 1;
      Recast(p, out[..], Over(g, j + 1, j + 2, 0, p.lda, t), Over(f, j + 1, p.lda, 0, p.lda, t));
    }
  }

  /** Nothing taken in yet, whichever end it will start from. */
  lemma FromTheTop<D>(p: Problem<D>, m: seq<D>, f: Spans, r0: nat)
    requires Holds(p, m, f) && AllAre(f, r0, p.lda, 0, p.lda, NONE)
    ensures Holds(p, m, Over(f, r0, p.lda, 0, p.lda, Span(p.lda, p.lda))) == true
  {
    var g := Over(f, r0, p.lda, 0, p.lda, Span(p.lda, p.lda));
    forall r: nat, c: nat | r < p.lda && c < p.lda ensures Entry(p, m, r, c, g(r, c)) {
      assert Entry(p, m, r, c, f(r, c));
    }
  }

  /** The lower half of the rows, on core 1. */
  method Downwards<D(!new)>(p: Problem<D>, out: array<D>, ghost f: Spans)
    requires Holds(p, out[..], f) == true && Commutes(p.op) == true && p.lda % 8 == 0 && AllAre(f, p.lda / 2, p.lda, 0, p.lda, NONE)
    modifies out
    ensures Holds(p, out[..], Over(f, p.lda / 2, p.lda, 0, p.lda, Span(0, p.lda))) == true
  {
    FromTheTop(p, out[..], f, p.lda / 2);
    var h := 2;
    while h > 0
      invariant 0 <= h <= 2 && Holds(p, out[..], Over(f, p.lda / 2, p.lda, 0, p.lda, Span(Half(h, p.lda), p.lda))) == true
    {
      ghost var g := Over(f, p.lda / 2, p.lda, 0, p.lda, Span(Half(h, p.lda), p.lda));
      HalfPassDown(p, out, h, g);
      h := h - 1;
      Recast(p, out[..], Over(g, p.lda / 2, p.lda, 0, p.lda, Span(Half(h, p.lda), p.lda)),
             Over(f, p.lda / 2, p.lda, 0, p.lda, Span(Half(h, p.lda), p.lda)));
    }
  }

  // ----- one core, all cores -----

  /** The core that works on row r. */
  function OwnerOf(r: nat, lda: nat, ncores: nat): (o: nat)
    ensures o <= 1 && (o == 0 <==> ncores == 1 || 2 * r + 1 < lda)
  {
    if ncores == 1 || r < lda / 2 then 0 else 1
  }

  function AfterCore(f: Spans, lda: nat, coreid: nat, ncores: nat): Spans {
    (r: nat, c: nat) => if OwnerOf(r, lda, ncores) == coreid then Span(0, lda) else f(r, c)
  }

  method MatMul<D(!new)>(p: Problem<D>, out: array<D>, coreid: nat, ncores: nat, ghost f: Spans)
    requires Holds(p, out[..], f) == true && Commutes(p.op) == true && p.lda % 8 == 0 && coreid < ncores
    requires forall r: nat, c: nat :: OwnerOf(r, p.lda, ncores) == coreid ==> f(r, c) == NONE
    modifies out
    ensures Holds(p, out[..], AfterCore(f, p.lda, coreid, ncores)) == true
  {
    ghost var g := f;
    if coreid > 1 {
      Recast(p, out[..], f, AfterCore(f, p.lda, coreid, ncores));
      return;
    }
    if coreid == 0 {
      Upwards(p, out, g);
      g := Over(f, 0, p.lda / 2, 0, p.lda, Span(0, p.lda));
    }
    if coreid == 1 || ncores == 1 {
      Downwards(p, out, g);
      g := Over(g, p.lda / 2, p.lda, 0, p.lda, Span(0, p.lda));
    }
    Recast(p, out[..], g, AfterCore(f, p.lda, coreid, ncores));
  }

  function OwnHalf(lda: nat, coreid: nat, ncores: nat): Spans {
    (r: nat, c: nat) => if OwnerOf(r, lda, ncores) == coreid then NONE else Foreign
  }

  /** A core has added its rows of A*B to those of C, each entry to its own, and left all other rows alone. */
  ghost predicate OwnHalfDone<D>(p: Problem<D>, m: seq<D>, coreid: nat, ncores: nat) {
    && p.Valid() && |m| == Size(p.lda)
    && forall r: nat, c: nat :: r < p.lda && c < p.lda ==>
         && Flat(p.lda, r, c) < |m|
         && m[Flat(p.lda, r, c)] == if OwnerOf(r, p.lda, ncores) == coreid then p.Result(r, c) else p.C[Flat(p.lda, r, c)]
  }

  lemma InitiallyHalf<D>(p: Problem<D>, coreid: nat, ncores: nat)
    requires p.Valid()
    ensures Holds(p, p.C, OwnHalf(p.lda, coreid, ncores))
  {
    forall r: nat, c: nat | r < p.lda && c < p.lda ensures Entry(p, p.C, r, c, OwnHalf(p.lda, coreid, ncores)(r, c)) {
      FlatInRange(p.lda, r, c);
    }
  }

  lemma AfterHalf<D>(p: Problem<D>, m: seq<D>, coreid: nat, ncores: nat)
    requires Holds(p, m, AfterCore(OwnHalf(p.lda, coreid, ncores), p.lda, coreid, ncores))
    ensures OwnHalfDone(p, m, coreid, ncores)
  {
    forall r: nat, c: nat | r < p.lda && c < p.lda
      ensures Flat(p.lda, r, c) < |m|
      ensures m[Flat(p.lda, r, c)] == if OwnerOf(r, p.lda, ncores) == coreid then p.Result(r, c) else p.C[Flat(p.lda, r, c)]
    {
      assert Entry(p, m, r, c, AfterCore(OwnHalf(p.lda, coreid, ncores), p.lda, coreid, ncores)(r, c));
      p.PartIsDot(r, c, p.lda);
    }
  }

  /**
   * Whatever C holds, a core adds to each entry of its own rows and leaves the others alone; all other rows are `Foreign`
   * in this call, so that it reads and writes none of their entries on the way.
   */
  method OneCore<D(!new)>(p: Problem<D>, out: array<D>, coreid: nat, ncores: nat)
    requires p.Valid() && Commutes(p.op) == true && p.lda % 8 == 0 && coreid < ncores && out[..] == p.C
    modifies out
    ensures OwnHalfDone(p, out[..], coreid, ncores)
  {
    InitiallyHalf(p, coreid, ncores);
    MatMul(p, out, coreid, ncores, OwnHalf(p.lda, coreid, ncores));
    AfterHalf(p, out[..], coreid, ncores);
  }

  function CalledSpans(lda: nat, order: seq<nat>, n: nat, ncores: nat): Spans
    requires n <= |order|
  {
    (r: nat, c: nat) => if OwnerOf(r, lda, ncores) in order[..n] then Span(0, lda) else NONE
  }

  /** One call for every core, in any order, leaves C + A*B. */
  method AllCores<D(!new)>(p: Problem<D>, out: array<D>, order: seq<nat>, ncores: nat)
    requires p.Valid() && Commutes(p.op) == true && p.lda % 8 == 0 && EachOnce(order, ncores) && out[..] == p.C
    modifies out
    ensures IsResult(p, out[..])
  {
    Initially(p);
    Recast(p, out[..], (r: nat, c: nat) => NONE, CalledSpans(p.lda, order, 0, ncores));
    for n := 0 to |order|
      invariant Holds(p, out[..], CalledSpans(p.lda, order, n, ncores)) == true
    {
      ghost var g := CalledSpans(p.lda, order, n, ncores);
      MatMul(p, out, order[n], ncores, g);
      Recast(p, out[..], AfterCore(g, p.lda, order[n], ncores), CalledSpans(p.lda, order, n + 1, ncores));
    }
    AllCalled(p, out[..], order, ncores);
  }

  lemma AllCalled<D>(p: Problem<D>, m: seq<D>, order: seq<nat>, ncores: nat)
    requires EachOnce(order, ncores) && Holds(p, m, CalledSpans(p.lda, order, |order|, ncores))
    ensures IsResult(p, m)
  {
    forall r: nat, c: nat | r < p.lda && c < p.lda
      ensures Flat(p.lda, r, c) < |m| && m[Flat(p.lda, r, c)] == p.Result(r, c)
    {
      assert OwnerOf(r, p.lda, ncores) in order && order[..|order|] == order;
      assert Entry(p, m, r, c, CalledSpans(p.lda, order, |order|, ncores)(r, c));
      p.PartIsDot(r, c, p.lda);
    }
  }
}
