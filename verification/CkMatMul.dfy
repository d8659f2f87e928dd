/** The kernel with 16-wide blocks whose column block rotates, starting at the core's own. */
module CkMatMul {
  import opened Bits
  import opened Matrices
  import opened Strides
  import opened Tiles

  /** Two neighbours in row r with their first n terms. */
  ghost predicate Sums<D>(p: Problem<D>, r: nat, i: nat, n: nat, c1: D, c2: D) {
    p.Valid() && r < p.lda && i + 2 <= p.lda && n <= p.lda && c1 == p.Part(r, i, 0, n) && c2 == p.Part(r, i + 1, 0, n)
  }

  method AddTerms<D>(p: Problem<D>, r: nat, i: nat, t: nat, s1: D, s2: D) returns (c1: D, c2: D)
    requires Sums(p, r, i, t, s1, s2) && t < p.lda
    ensures Sums(p, r, i, t + 1, c1, c2) == true
  {
    FlatInRange(p.lda, r, t);
    FlatInRange(p.lda, t, i);
    FlatInRange(p.lda, t, i + 1);
    var a, b1, b2 := p.A[Flat(p.lda, r, t)], p.B[Flat(p.lda, t, i)], p.B[Flat(p.lda, t, i + 1)];
    c1 := p.op.add(s1, p.op.mul(a, b1));
    c2 := p.op.add(s2, p.op.mul(a, b2));
  }

  /** One column of A and one row of B, for the eight sums of a tile of four rows by two columns. */
  method AddColumn<D>(p: Problem<D>, j: nat, i: nat, t: nat, s1: D, s2: D, s3: D, s4: D, s5: D, s6: D, s7: D, s8: D)
    returns (c1: D, c2: D, c3: D, c4: D, c5: D, c6: D, c7: D, c8: D)
    requires t < p.lda && Sums(p, j, i, t, s1, s2) == true && Sums(p, j + 1, i, t, s3, s4) == true
    requires Sums(p, j + 2, i, t, s5, s6) == true && Sums(p, j + 3, i, t, s7, s8) == true
    ensures Sums(p, j, i, t + 1, c1, c2) == true && Sums(p, j + 1, i, t + 1, c3, c4) == true
    ensures Sums(p, j + 2, i, t + 1, c5, c6) == true && Sums(p, j + 3, i, t + 1, c7, c8) == true
  {
    c1, c2 := AddTerms(p, j, i, t, s1, s2);
    c3, c4 := AddTerms(p, j + 1, i, t, s3, s4);
    c5, c6 := AddTerms(p, j + 2, i, t, s5, s6);
    c7, c8 := AddTerms(p, j + 3, i, t, s7, s8);
  }

  /** The innermost loop. */
  method AddEight<D>(p: Problem<D>, j: nat, i: nat, k: nat, s1: D, s2: D, s3: D, s4: D, s5: D, s6: D, s7: D, s8: D)
    returns (c1: D, c2: D, c3: D, c4: D, c5: D, c6: D, c7: D, c8: D)
    requires k + 8 <= p.lda && Sums(p, j, i, k, s1, s2) == true && Sums(p, j + 1, i, k, s3, s4) == true
    requires Sums(p, j + 2, i, k, s5, s6) == true && Sums(p, j + 3, i, k, s7, s8) == true
    ensures Sums(p, j, i, k + 8, c1, c2) == true && Sums(p, j + 1, i, k + 8, c3, c4) == true
    ensures Sums(p, j + 2, i, k + 8, c5, c6) == true && Sums(p, j + 3, i, k + 8, c7, c8) == true
  {
    c1, c2, c3, c4, c5, c6, c7, c8 := s1, s2, s3, s4, s5, s6, s7, s8;
    for x := 0 to 8
      invariant Sums(p, j, i, k + x, c1, c2) == true && Sums(p, j + 1, i, k + x, c3, c4) == true
      invariant Sums(p, j + 2, i, k + x, c5, c6) == true && Sums(p, j + 3, i, k + x, c7, c8) == true
    {
      c1, c2, c3, c4, c5, c6, c7, c8 := AddColumn(p, j, i, k + x, c1, c2, c3, c4, c5, c6, c7, c8);
    }
  }

  method SumTile<D>(p: Problem<D>, j: nat, i: nat, s1: D, s2: D, s3: D, s4: D, s5: D, s6: D, s7: D, s8: D)
    returns (c1: D, c2: D, c3: D, c4: D, c5: D, c6: D, c7: D, c8: D)
    requires p.lda % 8 == 0 && Sums(p, j, i, 0, s1, s2) == true && Sums(p, j + 1, i, 0, s3, s4) == true
    requires Sums(p, j + 2, i, 0, s5, s6) == true && Sums(p, j + 3, i, 0, s7, s8) == true
    ensures Sums(p, j, i, p.lda, c1, c2) == true && Sums(p, j + 1, i, p.lda, c3, c4) == true
    ensures Sums(p, j + 2, i, p.lda, c5, c6) == true && Sums(p, j + 3, i, p.lda, c7, c8) == true
  {
    c1, c2, c3, c4, c5, c6, c7, c8 := s1, s2, s3, s4, s5, s6, s7, s8;
    var k := 0;
    while k < p.lda
      invariant k <= p.lda && k % 8 == 0
      invariant Sums(p, j, i, k, c1, c2) == true && Sums(p, j + 1, i, k, c3, c4) == true
      invariant Sums(p, j + 2, i, k, c5, c6) == true && Sums(p, j + 3, i, k, c7, c8) == true
    {
      c1, c2, c3, c4, c5, c6, c7, c8 := AddEight(p, j, i, k, c1, c2, c3, c4, c5, c6, c7, c8);
      k := k + 8;
    }
  }

  method LoadPair<D>(p: Problem<D>, m: array<D>, r: nat, i: nat, ghost f: Spans) returns (c1: D, c2: D)
    requires Holds(p, m[..], f) == true && r < p.lda && i + 2 <= p.lda && f(r, i) == f(r, i + 1) == NONE
    ensures Sums(p, r, i, 0, c1, c2) == true
  {
    c1 := Load(p, m, r, i, f);
    c2 := Load(p, m, r, i + 1, f);
  }

  method StorePair<D>(p: Problem<D>, m: array<D>, r: nat, i: nat, c1: D, c2: D, ghost f: Spans) returns (ghost g: Spans)
    requires Holds(p, m[..], f) == true && Sums(p, r, i, p.lda, c1, c2) && Own(f, r, i, i + 2)
    modifies m
    ensures g == Over(f, r, r + 1, i, i + 2, Span(0, p.lda)) && Holds(p, m[..], g) == true
  {
    ghost var s := Span(0, p.lda);
    Store(p, m, r, i, c1, f, s);
    Store(p, m, r, i + 1, c2, Over(f, r, r + 1, i, i + 1, s), s);
    g := Over(f, r, r + 1, i, i + 2, s);
    MoreColumns(p, m[..], f, r, r + 1, i, i + 1, i + 2, s);
  }

  method StoreTile<D>(p: Problem<D>, m: array<D>, j: nat, i: nat, c1: D, c2: D, c3: D, c4: D, c5: D, c6: D, c7: D, c8: D,
                      ghost f: Spans)
    requires Holds(p, m[..], f) == true && Sums(p, j, i, p.lda, c1, c2) == true && Sums(p, j + 1, i, p.lda, c3, c4) == true
    requires Sums(p, j + 2, i, p.lda, c5, c6) == true && Sums(p, j + 3, i, p.lda, c7, c8) == true
    requires Own(f, j, i, i + 2) && Own(f, j + 1, i, i + 2) && Own(f, j + 2, i, i + 2) && Own(f, j + 3, i, i + 2)
    modifies m
    ensures Holds(p, m[..], Over(f, j, j + 4, i, i + 2, Span(0, p.lda))) == true
  {
    ghost var g := StorePair(p, m, j, i, c1, c2, f);
    g := StorePair(p, m, j + 1, i, c3, c4, g);
    g := StorePair(p, m, j + 2, i, c5, c6, g);
    g := StorePair(p, m, j + 3, i, c7, c8, g);
    Recast(p, m[..], g, Over(f, j, j + 4, i, i + 2, Span(0, p.lda)));
  }

  /** Four rows by two columns. */
  method Tile<D>(p: Problem<D>, m: array<D>, j: nat, i: nat, ghost f: Spans)
    requires Holds(p, m[..], f) == true && p.lda % 8 == 0 && j + 4 <= p.lda && i + 2 <= p.lda && AllAre(f, j, j + 4, i, i + 2, NONE)
    modifies m
    ensures Holds(p, m[..], Over(f, j, j + 4, i, i + 2, Span(0, p.lda))) == true
  {
    var c1, c2 := LoadPair(p, m, j, i, f);
    var c3, c4 := LoadPair(p, m, j + 1, i, f);
    var c5, c6 := LoadPair(p, m, j + 2, i, f);
    var c7, c8 := LoadPair(p, m, j + 3, i, f);
    c1, c2, c3, c4, c5, c6, c7, c8 := SumTile(p, j, i, c1, c2, c3, c4, c5, c6, c7, c8);
    StoreTile(p, m, j, i, c1, c2, c3, c4, c5, c6, c7, c8, f);
  }

  /** Four rows by the 16 columns from ii on. */
  method Strip<D>(p: Problem<D>, m: array<D>, j: nat, ii: nat, ghost f: Spans)
    requires Holds(p, m[..], f) == true && p.lda % 8 == 0 && j + 4 <= p.lda && ii + 16 <= p.lda && AllAre(f, j, j + 4, ii, ii + 16, NONE)
    modifies m
    ensures Holds(p, m[..], Over(f, j, j + 4, ii, ii + 16, Span(0, p.lda))) == true
  {
    ghost var s := Span(0, p.lda);
    var i := ii;
    Recast(p, m[..], f, Over(f, j, j + 4, ii, i, s));
    while i < p.lda && i < ii + 16
      invariant ii <= i <= ii + 16 && (i - ii) % 2 == 0
      invariant Holds(p, m[..], Over(f, j, j + 4, ii, i, s)) == true
      decreases ii + 16 - i
    {
      ghost var g := Over(f, j, j + 4, ii, i, s);
      Tile(p, m, j, i, g);
      MoreColumns(p, m[..], f, j, j + 4, ii, i, i + 2, s);
      i := i + 2;
    }
  }

  /** The block of 16 rows from jj on and 16 columns from ii on. */
  method Block<D>(p: Problem<D>, m: array<D>, jj: nat, ii: nat, ghost f: Spans)
    requires Holds(p, m[..], f) == true && p.lda % 8 == 0 && jj + 16 <= p.lda && ii + 16 <= p.lda
    requires AllAre(f, jj, jj + 16, ii, ii + 16, NONE)
    modifies m
    ensures Holds(p, m[..], Over(f, jj, jj + 16, ii, ii + 16, Span(0, p.lda))) == true
  {
    ghost var s := Span(0, p.lda);
    var j := jj;
    Recast(p, m[..], f, Over(f, jj, j, ii, ii + 16, s));
    while j < p.lda && j < jj + 16
      invariant jj <= j <= jj + 16 && (j - jj) % 4 == 0
      invariant Holds(p, m[..], Over(f, jj, j, ii, ii + 16, s)) == true
      decreases jj + 16 - j
    {
      ghost var g := Over(f, jj, j, ii, ii + 16, s);
      Strip(p, m, j, ii, g);
      MoreRows(p, m[..], f, jj, j, j + 4, ii, ii + 16, s);
      j := j + 4;
    }
  }

  // ----- the rotating block -----

  /** The columns done when the block at ii is next, on the way round from `start`. */
  predicate Turned(start: nat, ii: nat, first: bool, c: nat) {
    !first && if ii > start then start <= c < ii else c >= start || c < ii
  }

  function TurnedSpans(f: Spans, lda: nat, jj: nat, start: nat, ii: nat, first: bool): Spans {
    (r: nat, c: nat) => if jj <= r < jj + 16 && Turned(start, ii, first, c) then Span(0, lda) else f(r, c)
  }

  lemma RoomForBlock(ii: nat, lda: nat)
    requires ii % 16 == 0 && lda % 16 == 0 && ii < lda
    ensures ii + 16 <= lda && (ii + 16) % 16 == 0 && lda % 8 == 0
  {
    var a, b := ii / 16, lda / 16;
    assert ii == 16 * a && lda == 16 * b;
    assert ii + 16 == 16 * (a + 1) && lda == 8 * (2 * b);
  }

  lemma WrapsAround(x: nat, lda: nat)
    requires 0 < x <= lda
    ensures x % lda == if x == lda then 0 else x
  {
    if x == lda {
      DivModUnique(x, lda, 1, 0);
    } else {
      SmallMod(x, lda);
    }
  }

  /** The block at ii joins the columns done. */
  lemma OneMoreBlock(start: nat, ii: nat, first: bool, lda: nat, ii': nat)
    requires ii % 16 == 0 && start % 16 == 0 && lda % 16 == 0 && ii < lda && start < lda && (first ==> ii == start)
    requires (first || ii != start) && ii' == if ii + 16 == lda then 0 else ii + 16
    ensures forall c: nat :: c < lda ==> (Turned(start, ii', false, c) <==> Turned(start, ii, first, c) || ii <= c < ii + 16)
  {
    RoomForBlock(ii, lda);
    assert ii < start ==> ii + 16 <= start;
  }

  lemma NotYet(start: nat, ii: nat, first: bool)
    requires ii % 16 == 0 && start % 16 == 0 && (first || ii != start)
    ensures forall c: nat :: ii <= c < ii + 16 ==> !Turned(start, ii, first, c)
  {
    assert ii < start ==> ii + 16 <= start;
  }

  /** Sixteen rows: every column block once, the core's own first. */
  method Rotate<D>(p: Problem<D>, m: array<D>, jj: nat, start: nat, ghost f: Spans)
    requires Holds(p, m[..], f) == true && p.lda % 16 == 0 && jj + 16 <= p.lda && start % 16 == 0 && start < p.lda
    requires AllAre(f, jj, jj + 16, 0, p.lda, NONE)
    modifies m
    ensures Holds(p, m[..], Over(f, jj, jj + 16, 0, p.lda, Span(0, p.lda))) == true
  {
    var lda, first, ii: nat := p.lda, true, start;
    Recast(p, m[..], f, TurnedSpans(f, lda, jj, start, ii, first));
    while ii != start || first
      invariant ii < lda && ii % 16 == 0 && (first ==> ii == start)
      invariant Holds(p, m[..], TurnedSpans(f, lda, jj, start, ii, first)) == true
      decreases if first then lda else if ii > start then lda - ii + start else start - ii
    {
      ghost var g, here, was := TurnedSpans(f, lda, jj, start, ii, first), ii, first;
      RoomForBlock(ii, lda);
      WrapsAround(16 + ii, lda);
      NotYet(start, ii, first);
      first := false;
      Block(p, m, jj, ii, g);
      ii := (16 + ii) % lda;
      OneMoreBlock(start, here, was, lda, ii);
      Recast(p, m[..], Over(g, jj, jj + 16, here, here + 16, Span(0, lda)), TurnedSpans(f, lda, jj, start, ii, first));
    }
    Recast(p, m[..], TurnedSpans(f, lda, jj, start, ii, first), Over(f, jj, jj + 16, 0, lda, Span(0, lda)));
  }

  // ----- one core, all cores -----

  method MatMul<D>(p: Problem<D>, m: array<D>, coreid: nat, ncores: nat, ghost f: Spans)
    requires Holds(p, m[..], f) == true && p.lda % 16 == 0 && ncores > 0
    requires forall r: nat, c: nat :: Mine(r, coreid, ncores) ==> f(r, c) == NONE
    modifies m
    ensures Holds(p, m[..], After(f, p.lda, coreid, ncores)) == true
  {
    var bsize := 16;
    var start := bsize * coreid;
    var jj := start;
    ghost var n := coreid;
    forall r: nat ensures r / 16 < n ==> !Mine(r, coreid, ncores) {
      NotBefore(r / 16, coreid, ncores);
    }
    Recast(p, m[..], f, MineBelow(f, p.lda, coreid, ncores, n));
    while jj < p.lda
      invariant jj == 16 * n && n >= coreid && Visited(n, coreid, ncores)
      invariant Holds(p, m[..], MineBelow(f, p.lda, coreid, ncores, n)) == true
      decreases p.lda - jj
    {
      ghost var g := MineBelow(f, p.lda, coreid, ncores, n);
      Rotate(p, m, jj, start, g);
      NextVisited(n, coreid, ncores);
      n := n + ncores;
      Recast(p, m[..], Over(g, jj, jj + 16, 0, p.lda, Span(0, p.lda)), MineBelow(f, p.lda, coreid, ncores, n));
      jj := jj + bsize * ncores;
    }
    Recast(p, m[..], MineBelow(f, p.lda, coreid, ncores, n), After(f, p.lda, coreid, ncores));
  }

  /**
   * Whatever C holds, a core adds to each entry of its own rows and leaves the others alone; all other rows are `Foreign`
   * in this call, so that it reads and writes none of their entries on the way.
   */
  method OneCore<D>(p: Problem<D>, m: array<D>, coreid: nat, ncores: nat)
    requires p.Valid() && p.lda % 16 == 0 && ncores > 0 && m[..] == p.C
    modifies m
    ensures OwnRowsDone(p, m[..], coreid, ncores)
  {
    InitiallyOwn(p, coreid, ncores);
    MatMul(p, m, coreid, ncores, OwnSpans(coreid, ncores));
    AfterIsDone(p, m[..], coreid, ncores);
  }

  /** One call for every core, in any order, leaves C + A*B. */
  method AllCores<D>(p: Problem<D>, m: array<D>, order: seq<nat>, ncores: nat)
    requires p.Valid() && p.lda % 16 == 0 && EachOnce(order, ncores) && m[..] == p.C
    modifies m
    ensures IsResult(p, m[..])
  {
    Initially(p);
    Recast(p, m[..], (r: nat, c: nat) => NONE, DealtSpans(p.lda, order, 0, ncores));
    for n := 0 to |order|
      invariant Holds(p, m[..], DealtSpans(p.lda, order, n, ncores)) == true
    {
      ghost var g := DealtSpans(p.lda, order, n, ncores);
      forall r: nat | Mine(r, order[n], ncores) ensures !Dealt(r, order, n, ncores) {
        NotDealtTwice(r, order, n, ncores);
      }
      MatMul(p, m, order[n], ncores, g);
      Recast(p, m[..], After(g, p.lda, order[n], ncores), DealtSpans(p.lda, order, n + 1, ncores));
    }
    AllDealt(p, m[..], order, ncores);
  }
}
