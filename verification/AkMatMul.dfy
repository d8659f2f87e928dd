/** The kernel that deals blocks of 16 rows to the cores and works on tiles of one row by eight columns. */
module AkMatMul {
  import opened Matrices
  import opened Strides
  import opened Tiles

  /** Four neighbours in row r with their first n terms. */
  ghost predicate Sums<D>(p: Problem<D>, r: nat, i: nat, n: nat, c1: D, c2: D, c3: D, c4: D) {
    && p.Valid() && r < p.lda && i + 4 <= p.lda && n <= p.lda
    && c1 == p.Part(r, i, 0, n) && c2 == p.Part(r, i + 1, 0, n) && c3 == p.Part(r, i + 2, 0, n) && c4 == p.Part(r, i + 3, 0, n)
  }

  method AddTerms<D>(p: Problem<D>, r: nat, i: nat, t: nat, a: D, s1: D, s2: D, s3: D, s4: D)
    returns (c1: D, c2: D, c3: D, c4: D)
    requires Sums(p, r, i, t, s1, s2, s3, s4) && t < p.lda && Flat(p.lda, r, t) < |p.A| && a == p.A[Flat(p.lda, r, t)]
    ensures Sums(p, r, i, t + 1, c1, c2, c3, c4) == true
  {
    c1 := AddTerm(p, r, i, t, a, s1);
    c2 := AddTerm(p, r, i + 1, t, a, s2);
    c3 := AddTerm(p, r, i + 2, t, a, s3);
    c4 := AddTerm(p, r, i + 3, t, a, s4);
  }

  method AddTerm<D>(p: Problem<D>, r: nat, c: nat, t: nat, a: D, s: D) returns (s': D)
    requires p.Valid() && r < p.lda && c < p.lda && t < p.lda && s == p.Part(r, c, 0, t)
    requires Flat(p.lda, r, t) < |p.A| && a == p.A[Flat(p.lda, r, t)]
    ensures s' == p.Part(r, c, 0, t + 1)
  {
    FlatInRange(p.lda, t, c);
    s' := p.op.add(s, p.op.mul(a, p.B[Flat(p.lda, t, c)]));
  }

  /** The innermost loop: four columns of A for the eight sums of a tile. */
  method AddFour<D>(p: Problem<D>, j: nat, i: nat, k: nat, s1: D, s2: D, s3: D, s4: D, s5: D, s6: D, s7: D, s8: D)
    returns (c1: D, c2: D, c3: D, c4: D, c5: D, c6: D, c7: D, c8: D)
    requires k + 4 <= p.lda && Sums(p, j, i, k, s1, s2, s3, s4) && Sums(p, j, i + 4, k, s5, s6, s7, s8) == true
    ensures Sums(p, j, i, k + 4, c1, c2, c3, c4) == true && Sums(p, j, i + 4, k + 4, c5, c6, c7, c8) == true
  {
    c1, c2, c3, c4, c5, c6, c7, c8 := s1, s2, s3, s4, s5, s6, s7, s8;
    for x := 0 to 4
      invariant Sums(p, j, i, k + x, c1, c2, c3, c4) == true && Sums(p, j, i + 4, k + x, c5, c6, c7, c8) == true
    {
      FlatInRange(p.lda, j, k + x);
      var a := p.A[Flat(p.lda, j, k + x)];
      c1, c2, c3, c4 := AddTerms(p, j, i, k + x, a, c1, c2, c3, c4);
      c5, c6, c7, c8 := AddTerms(p, j, i + 4, k + x, a, c5, c6, c7, c8);
    }
  }

  method SumTile<D>(p: Problem<D>, j: nat, i: nat, s1: D, s2: D, s3: D, s4: D, s5: D, s6: D, s7: D, s8: D)
    returns (c1: D, c2: D, c3: D, c4: D, c5: D, c6: D, c7: D, c8: D)
    requires p.lda % 8 == 0 && Sums(p, j, i, 0, s1, s2, s3, s4) == true && Sums(p, j, i + 4, 0, s5, s6, s7, s8) == true
    ensures Sums(p, j, i, p.lda, c1, c2, c3, c4) == true && Sums(p, j, i + 4, p.lda, c5, c6, c7, c8) == true
  {
    c1, c2, c3, c4, c5, c6, c7, c8 := s1, s2, s3, s4, s5, s6, s7, s8;
    var k := 0;
    while k < p.lda
      invariant k <= p.lda && k % 4 == 0
      invariant Sums(p, j, i, k, c1, c2, c3, c4) == true && Sums(p, j, i + 4, k, c5, c6, c7, c8) == true
    {
      c1, c2, c3, c4, c5, c6, c7, c8 := AddFour(p, j, i, k, c1, c2, c3, c4, c5, c6, c7, c8);
      k := k + 4;
    }
  }

  method LoadFour<D>(p: Problem<D>, m: array<D>, r: nat, i: nat, ghost f: Spans) returns (c1: D, c2: D, c3: D, c4: D)
    requires Holds(p, m[..], f) == true && r < p.lda && i + 4 <= p.lda && AllAre(f, r, r + 1, i, i + 4, NONE)
    ensures Sums(p, r, i, 0, c1, c2, c3, c4) == true
  {
    c1 := Load(p, m, r, i, f);
    c2 := Load(p, m, r, i + 1, f);
    c3 := Load(p, m, r, i + 2, f);
    c4 := Load(p, m, r, i + 3, f);
  }

  method StoreFour<D>(p: Problem<D>, m: array<D>, r: nat, i: nat, c1: D, c2: D, c3: D, c4: D, ghost f: Spans)
    requires Holds(p, m[..], f) == true && Sums(p, r, i, p.lda, c1, c2, c3, c4) && Own(f, r, i, i + 4)
    modifies m
    ensures Holds(p, m[..], Over(f, r, r + 1, i, i + 4, Span(0, p.lda))) == true
  {
    StoreTwo(p, m, r, i, c1, c2, f);
    StoreTwo(p, m, r, i + 2, c3, c4, Over(f, r, r + 1, i, i + 2, Span(0, p.lda)));
    MoreColumns(p, m[..], f, r, r + 1, i, i + 2, i + 4, Span(0, p.lda));
  }

  method StoreTwo<D>(p: Problem<D>, m: array<D>, r: nat, i: nat, c1: D, c2: D, ghost f: Spans)
    requires Holds(p, m[..], f) == true && p.Valid() && r < p.lda && i + 2 <= p.lda && Own(f, r, i, i + 2)
    requires c1 == p.Part(r, i, 0, p.lda) && c2 == p.Part(r, i + 1, 0, p.lda)
    modifies m
    ensures Holds(p, m[..], Over(f, r, r + 1, i, i + 2, Span(0, p.lda))) == true
  {
    ghost var s := Span(0, p.lda);
    Store(p, m, r, i, c1, f, s);
    ghost var g := Over(f, r, r + 1, i, i + 1, s);
    Store(p, m, r, i + 1, c2, g, s);
    MoreColumns(p, m[..], f, r, r + 1, i, i + 1, i + 2, s);
  }

  /** One row by eight columns. */
  method Tile<D>(p: Problem<D>, m: array<D>, j: nat, i: nat, ghost f: Spans)
    requires Holds(p, m[..], f) == true && p.lda % 8 == 0 && j < p.lda && i + 8 <= p.lda && AllAre(f, j, j + 1, i, i + 8, NONE)
    modifies m
    ensures Holds(p, m[..], Over(f, j, j + 1, i, i + 8, Span(0, p.lda))) == true
  {
    var c1, c2, c3, c4 := LoadFour(p, m, j, i, f);
    var c5, c6, c7, c8 := LoadFour(p, m, j, i + 4, f);
    c1, c2, c3, c4, c5, c6, c7, c8 := SumTile(p, j, i, c1, c2, c3, c4, c5, c6, c7, c8);
    ghost var g := Over(f, j, j + 1, i, i + 4, Span(0, p.lda));
    StoreFour(p, m, j, i, c1, c2, c3, c4, f);
    StoreFour(p, m, j, i + 4, c5, c6, c7, c8, g);
    MoreColumns(p, m[..], f, j, j + 1, i, i + 4, i + 8, Span(0, p.lda));
  }

  /** Row j, the 16 columns from ii on, or as many as there are. */
  method Strip<D>(p: Problem<D>, m: array<D>, j: nat, ii: nat, ghost f: Spans)
    requires Holds(p, m[..], f) == true && p.lda % 8 == 0 && j < p.lda && ii % 16 == 0 && AllAre(f, j, j + 1, ii, p.lda, NONE)
    modifies m
    ensures Holds(p, m[..], Over(f, j, j + 1, ii, ii + 16, Span(0, p.lda))) == true
  {
    ghost var s := Span(0, p.lda);
    var i := ii;
    Recast(p, m[..], f, Over(f, j, j + 1, ii, i, s));
    while i < p.lda && i < ii + 16
      invariant ii <= i <= ii + 16 && i % 8 == 0
      invariant Holds(p, m[..], Over(f, j, j + 1, ii, i, s)) == true
      decreases ii + 16 - i
    {
      ghost var g := Over(f, j, j + 1, ii, i, s);
      RoomForTile(i, p.lda);
      Tile(p, m, j, i, g);
      MoreColumns(p, m[..], f, j, j + 1, ii, i, i + 8, s);
      i := i + 8;
    }
    Recast(p, m[..], Over(f, j, j + 1, ii, i, s), Over(f, j, j + 1, ii, ii + 16, s));
  }

  method Block<D>(p: Problem<D>, m: array<D>, jj: nat, ii: nat, ghost f: Spans)
    requires Holds(p, m[..], f) == true && p.lda % 8 == 0 && ii % 16 == 0 && AllAre(f, jj, jj + 16, ii, p.lda, NONE)
    modifies m
    ensures Holds(p, m[..], Over(f, jj, jj + 16, ii, ii + 16, Span(0, p.lda))) == true
  {
    ghost var s := Span(0, p.lda);
    var j := jj;
    Recast(p, m[..], f, Over(f, jj, j, ii, ii + 16, s));
    while j < p.lda && j < jj + 16
      invariant jj <= j <= jj + 16
      invariant Holds(p, m[..], Over(f, jj, j, ii, ii + 16, s)) == true
      decreases jj + 16 - j
    {
      ghost var g := Over(f, jj, j, ii, ii + 16, s);
      Strip(p, m, j, ii, g);
      MoreRows(p, m[..], f, jj, j, j + 1, ii, ii + 16, s);
      j := j + 1;
    }
    Recast(p, m[..], Over(f, jj, j, ii, ii + 16, s), Over(f, jj, jj + 16, ii, ii + 16, s));
  }

  method Rows<D>(p: Problem<D>, m: array<D>, jj: nat, ghost f: Spans)
    requires Holds(p, m[..], f) == true && p.lda % 8 == 0 && AllAre(f, jj, jj + 16, 0, p.lda, NONE)
    modifies m
    ensures Holds(p, m[..], Over(f, jj, jj + 16, 0, p.lda, Span(0, p.lda))) == true
  {
    ghost var s := Span(0, p.lda);
    var ii := 0;
    Recast(p, m[..], f, Over(f, jj, jj + 16, 0, ii, s));
    while ii < p.lda
      invariant ii % 16 == 0 && Holds(p, m[..], Over(f, jj, jj + 16, 0, ii, s)) == true
      decreases p.lda - ii
    {
      ghost var g := Over(f, jj, jj + 16, 0, ii, s);
      Block(p, m, jj, ii, g);
      MoreColumns(p, m[..], f, jj, jj + 16, 0, ii, ii + 16, s);
      ii := ii + 16;
    }
    Recast(p, m[..], Over(f, jj, jj + 16, 0, ii, s), Over(f, jj, jj + 16, 0, p.lda, s));
  }

  // ----- one core, all cores -----

  method MatMul<D>(p: Problem<D>, m: array<D>, coreid: nat, ncores: nat, ghost f: Spans)
    requires Holds(p, m[..], f) == true && p.lda % 8 == 0 && ncores > 0
    requires forall r: nat, c: nat :: Mine(r, coreid, ncores) ==> f(r, c) == NONE
    modifies m
    ensures Holds(p, m[..], After(f, p.lda, coreid, ncores)) == true
  {
    var bsize := 16;
    var jj := bsize * coreid;
    ghost var n := coreid;
    forall r: nat ensures r / 16 < n ==> !Mine(r, coreid, ncores) {
      NotBefore(r / 16, coreid, ncores);
    }
    Recast(p, m[..], f, MineBelow(f, p.lda, coreid, ncores, n));
    while jj < p.lda
      invariant jj == 16 * n && n >= coreid && Visited(n, coreid, ncores)
      invariant Holds(p, m[..], MineBelow(f, p.lda, coreid, ncores, n)) == true
      decreases p.lda - jj
    {
      ghost var g := MineBelow(f, p.lda, coreid, ncores, n);
      Rows(p, m, jj, g);
      NextVisited(n, coreid, ncores);
      n := n + ncores;
      Recast(p, m[..], Over(g, jj, jj + 16, 0, p.lda, Span(0, p.lda)), MineBelow(f, p.lda, coreid, ncores, n));
      jj := jj + bsize * ncores;
    }
    Recast(p, m[..], MineBelow(f, p.lda, coreid, ncores, n), After(f, p.lda, coreid, ncores));
  }

  /**
   * Whatever C holds, a core adds to each entry of its own rows and leaves the others alone; all other rows are `Foreign`
   * in this call, so that it reads and writes none of their entries on the way.
   */
  method OneCore<D>(p: Problem<D>, m: array<D>, coreid: nat, ncores: nat)
    requires p.Valid() && p.lda % 8 == 0 && ncores > 0 && m[..] == p.C
    modifies m
    ensures OwnRowsDone(p, m[..], coreid, ncores)
  {
    InitiallyOwn(p, coreid, ncores);
    MatMul(p, m, coreid, ncores, OwnSpans(coreid, ncores));
    AfterIsDone(p, m[..], coreid, ncores);
  }

  /** One call for every core, in any order, leaves C + A*B. */
  method AllCores<D>(p: Problem<D>, m: array<D>, order: seq<nat>, ncores: nat)
    requires p.Valid() && p.lda % 8 == 0 && EachOnce(order, ncores) && m[..] == p.C
    modifies m
    ensures IsResult(p, m[..])
  {
    Initially(p);
    Recast(p, m[..], (r: nat, c: nat) => NONE, DealtSpans(p.lda, order, 0, ncores));
    for n := 0 to |order|
      invariant Holds(p, m[..], DealtSpans(p.lda, order, n, ncores)) == true
    {
      ghost var g := DealtSpans(p.lda, order, n, ncores);
      forall r: nat | Mine(r, order[n], ncores) ensures !Dealt(r, order, n, ncores) {
        NotDealtTwice(r, order, n, ncores);
      }
      MatMul(p, m, order[n], ncores, g);
      Recast(p, m[..], After(g, p.lda, order[n], ncores), DealtSpans(p.lda, order, n + 1, ncores));
    }
    AllDealt(p, m[..], order, ncores);
  }
}
