/**
 * The barrier-synchronised kernel: every core transposes its share of B into a shared buffer, one column per
 * barrier, then multiplies its rows of A by the transposed matrix. The cores interleave statement by statement.
 */
module BarrierMatMul {
  import opened Bits
  import opened Matrices

  /** `share` is lda/ncores, the number of rows that one core owns. */
  datatype Config<!D> = Config(ncores: nat, lda: nat, share: nat, A: seq<D>, B: seq<D>, op: Arithmetic<D>)
  {
    /** What the kernel needs of its caller. */
    predicate Valid() {
      ncores > 0 && lda > 0 && lda % 8 == 0 && Lo(ncores) == lda && |A| == Size(lda) && |B| == Size(lda)
    }

    /** The first row of core x. */
    function Lo(x: nat): nat { Flat(share, x, 0) }

    function Hi(x: nat): nat { Lo(x + 1) }

    /** The shares are equal and exact: ncores divides lda. */
    lemma SharesDivide()
      requires Valid()
      ensures lda % ncores == 0 && share == lda / ncores
    {
      FlatIsProduct(share, ncores, 0);
      DivModUnique(lda, ncores, share, 0);
    }

    lemma Shares(x: nat)
      requires Valid() && x < ncores
      ensures share > 0 && Lo(x) + share == Hi(x) <= lda
    {
      LoGrows(x + 1, ncores);
      if share == 0 {
        FlatIsProduct(share, ncores, 0);
      }
    }

    lemma {:induction false} LoGrows(x: nat, y: nat)
      requires x <= y
      ensures Lo(x) <= Lo(y)
    {
      if x < y {
        LoGrows(x, y - 1);
      }
    }

    /** The core that owns a row. */
    lemma Owner(r: nat) returns (x: nat)
      requires Valid() && r < lda
      ensures x < ncores && Lo(x) <= r < Hi(x)
    {
      x := OwnerBelow(r, ncores);
    }

    lemma {:induction false} OwnerBelow(r: nat, n: nat) returns (x: nat)
      requires r < Lo(n)
      ensures x < n && Lo(x) <= r < Hi(x)
    {
      if n > 0 && r < Lo(n - 1) {
        x := OwnerBelow(r, n - 1);
      } else {
        x := n - 1;
      }
    }

    function Product(r: nat, c: nat, n: nat): D
      requires Valid() && r < lda && c < lda && n <= lda
    {
      Dot(op, lda, A, B, r, c, op.zero, n)
    }
  }

  /** Where a core is: `Store` holds the four finished sums, `Multiply` counts the 32 statements of one unrolled round. */
  datatype Pc<!D> =
    | Transpose(k: nat, i: nat)
    | AtTransposeBarrier(k: nat)
    | Multiply(i: nat, j: nat, k: nat, n: nat, c: seq<D>)
    | Store(i: nat, j: nat, m: nat, c: seq<D>)
    | AtProductBarrier(i: nat, j: nat)
    | Finished

  /** A core and the number of barriers it has reached. */
  datatype Core<!D> = Core(pc: Pc<D>, arrivals: nat)
  {
    predicate Waiting() { pc.AtTransposeBarrier? || pc.AtProductBarrier? }

    function Passed(): int { if Waiting() then arrivals - 1 else arrivals }
  }

  /** The shared memory and the cores. */
  datatype State<!D> = State(bb: seq<D>, c: seq<D>, cores: seq<Core<D>>)

  predicate Shaped<D>(cfg: Config<D>, s: State<D>) {
    cfg.Valid() && |s.bb| >= Size(cfg.lda) && |s.c| >= Size(cfg.lda) && |s.cores| == cfg.ncores
  }

  // ----- steps -----

  /** A core at a barrier may go on once every core has reached it. */
  predicate Enabled<D>(s: State<D>, x: nat) {
    && x < |s.cores| && !s.cores[x].pc.Finished?
    && (s.cores[x].Waiting() ==> forall y :: 0 <= y < |s.cores| ==> s.cores[y].arrivals >= s.cores[x].arrivals)
  }

  /** The control state is one the program can be in. */
  predicate InProgram<D>(cfg: Config<D>, x: nat, pc: Pc<D>)
    requires cfg.Valid()
  {
    match pc
    case Transpose(k, i) => k < cfg.lda && cfg.Lo(x) <= i <= cfg.Hi(x)
    case AtTransposeBarrier(k) => k < cfg.lda
    case Multiply(i, j, k, n, c) =>
      i % 4 == 0 && i + 4 <= cfg.lda && cfg.Lo(x) <= j < cfg.Hi(x) && k % 8 == 0 && k + 8 <= cfg.lda && n <= 32 && |c| == 4
    case Store(i, j, m, c) =>
      i % 4 == 0 && i + 4 <= cfg.lda && cfg.Lo(x) <= j < cfg.Hi(x) && m <= 4 && |c| == 4
    case AtProductBarrier(i, j) => i % 4 == 0 && i + 4 <= cfg.lda && cfg.Lo(x) <= j < cfg.Hi(x)
    case Finished => true
  }

  function FourZeros<D>(cfg: Config<D>): (c: seq<D>)
    ensures |c| == 4 && forall m :: 0 <= m < 4 ==> c[m] == cfg.op.zero
  {
    [cfg.op.zero, cfg.op.zero, cfg.op.zero, cfg.op.zero]
  }

  /** One statement of core x. */
  function Step<D>(cfg: Config<D>, s: State<D>, x: nat): (s': State<D>)
    requires Shaped(cfg, s) && Enabled(s, x) && InProgram(cfg, x, s.cores[x].pc)
    ensures Shaped(cfg, s')
  {
    cfg.Shares(x);
    var lda, core := cfg.lda, s.cores[x];
    var n := core.arrivals;
    match core.pc
    case Transpose(k, i) =>
      if i < cfg.Hi(x) then
        FlatInRange(lda, i, k);
        FlatInRange(lda, k, i);
        s.(bb := s.bb[Flat(lda, i, k) := cfg.B[Flat(lda, k, i)]], cores := s.cores[x := Core(Transpose(k, i + 1), n)])
      else
        s.(cores := s.cores[x := Core(AtTransposeBarrier(k), n + 1)])
    case AtTransposeBarrier(k) =>
      s.(cores := s.cores[x := Core(if k + 1 < lda then Transpose(k + 1, cfg.Lo(x))
                                    else Multiply(0, cfg.Lo(x), 0, 0, FourZeros(cfg)), n)])
    case Multiply(i, j, k, m, c) =>
      if m < 32 then
        var q, t := m / 8, k + m % 8;
        FlatInRange(lda, j, t);
        FlatInRange(lda, i + q, t);
        var sum := cfg.op.add(c[q], cfg.op.mul(cfg.A[Flat(lda, j, t)], s.bb[Flat(lda, i + q, t)]));
        s.(cores := s.cores[x := Core(Multiply(i, j, k, m + 1, c[q := sum]), n)])
      else
        s.(cores := s.cores[x := Core(if k + 8 < lda then Multiply(i, j, k + 8, 0, c) else Store(i, j, 0, c), n)])
    case Store(i, j, m, c) =>
      if m < 4 then
        FlatInRange(lda, j, i + m);
        s.(c := s.c[Flat(lda, j, i + m) := c[m]], cores := s.cores[x := Core(Store(i, j, m + 1, c), n)])
      else
        s.(cores := s.cores[x := Core(AtProductBarrier(i, j), n + 1)])
    case AtProductBarrier(i, j) =>
      s.(cores := s.cores[x := Core(if j + 1 < cfg.Hi(x) then Multiply(i, j + 1, 0, 0, FourZeros(cfg))
                                    else if i + 4 < lda then Multiply(i + 4, cfg.Lo(x), 0, 0, FourZeros(cfg))
                                    else Finished, n)])
  }

  /** A statement of core x moves core x only; a barrier is counted exactly when the core has come to one. */
  lemma StepMovesOne<D>(cfg: Config<D>, s: State<D>, x: nat)
    requires Shaped(cfg, s) && Enabled(s, x) && InProgram(cfg, x, s.cores[x].pc)
    ensures var s' := Step(cfg, s, x);
            && (forall y :: 0 <= y < |s.cores| && y != x ==> s'.cores[y] == s.cores[y])
            && s'.cores[x].arrivals == s.cores[x].arrivals + if s'.cores[x].Waiting() then 1 else 0
  {
  }

  /** One entry of an array has changed, if any, and it lies in the rows of core x. */
  ghost predicate OwnEntry<D>(cfg: Config<D>, x: nat, a: seq<D>, a': seq<D>) {
    |a'| == |a| && (a' == a || exists r: nat, c: nat :: Overwritten(cfg, x, a, a', r, c))
  }

  ghost predicate Overwritten<D>(cfg: Config<D>, x: nat, a: seq<D>, a': seq<D>, r: nat, c: nat) {
    && cfg.Lo(x) <= r < cfg.Hi(x) && c < cfg.lda && Flat(cfg.lda, r, c) < |a| == |a'|
    && a' == a[Flat(cfg.lda, r, c) := a'[Flat(cfg.lda, r, c)]]
  }

  /** A statement of core x writes one of the two shared arrays at most, and there one entry in its own rows. */
  lemma StepFootprint<D>(cfg: Config<D>, s: State<D>, x: nat)
    requires Shaped(cfg, s) && Enabled(s, x) && InProgram(cfg, x, s.cores[x].pc)
    ensures var s' := Step(cfg, s, x);
            && OwnEntry(cfg, x, s.bb, s'.bb) && OwnEntry(cfg, x, s.c, s'.c) && (s'.bb == s.bb || s'.c == s.c)
  {
    cfg.Shares(x);
    match s.cores[x].pc
    case Transpose(k, i) =>
      if i < cfg.Hi(x) {
        FlatInRange(cfg.lda, i, k);
        FlatInRange(cfg.lda, k, i);
        assert Overwritten(cfg, x, s.bb, Step(cfg, s, x).bb, i, k);
      }
    case Store(i, j, m, c) =>
      if m < 4 {
        FlatInRange(cfg.lda, j, i + m);
        assert Overwritten(cfg, x, s.c, Step(cfg, s, x).c, j, i + m);
      }
    case _ =>
  }

  /** So the rows of the other cores stay as they are. */
  lemma OtherRowsStay<D>(cfg: Config<D>, s: State<D>, x: nat, r: nat, c: nat)
    requires Shaped(cfg, s) && Enabled(s, x) && InProgram(cfg, x, s.cores[x].pc)
    requires r < cfg.lda && c < cfg.lda && !(cfg.Lo(x) <= r < cfg.Hi(x))
    ensures var s', k := Step(cfg, s, x), Flat(cfg.lda, r, c);
            k < |s.bb| == |s'.bb| && k < |s.c| == |s'.c| && s'.bb[k] == s.bb[k] && s'.c[k] == s.c[k]
  {
    StepFootprint(cfg, s, x);
    FlatInRange(cfg.lda, r, c);
    ElsewhereStays(cfg, x, s.bb, Step(cfg, s, x).bb, r, c);
    ElsewhereStays(cfg, x, s.c, Step(cfg, s, x).c, r, c);
  }

  lemma ElsewhereStays<D>(cfg: Config<D>, x: nat, a: seq<D>, a': seq<D>, r: nat, c: nat)
    requires OwnEntry(cfg, x, a, a') && c < cfg.lda && !(cfg.Lo(x) <= r < cfg.Hi(x)) && Flat(cfg.lda, r, c) < |a|
    ensures a'[Flat(cfg.lda, r, c)] == a[Flat(cfg.lda, r, c)]
  {
    if a' != a {
      var r': nat, c': nat :| Overwritten(cfg, x, a, a', r', c');
      if Flat(cfg.lda, r, c) == Flat(cfg.lda, r', c') {
        FlatInjective(cfg.lda, r, c, r', c');
      }
    }
  }

  // ----- what has been done -----

  /** A core at pc has written column k of the transposed buffer's row r (its own). */
  predicate Transposed<D>(pc: Pc<D>, r: nat, k: nat) {
    match pc
    case Transpose(k', i) => k < k' || (k == k' && r < i)
    case AtTransposeBarrier(k') => k <= k'
    case _ => true
  }

  /** A core at pc has stored the entry of C in row r (its own) and column c. */
  predicate Stored<D>(pc: Pc<D>, r: nat, c: nat) {
    match pc
    case Transpose(_, _) => false
    case AtTransposeBarrier(_) => false
    case Multiply(i, j, _, _, _) => c < i || (c < i + 4 && r < j)
    case Store(i, j, m, _) => c < i || (c < i + 4 && r < j) || (r == j && c < i + m)
    case AtProductBarrier(i, j) => c < i || (c < i + 4 && r <= j)
    case Finished => true
  }

  /** w barriers for each block of four columns before column i. */
  function Turns(i: nat, w: nat): nat {
    if i < 4 then 0 else Turns(i - 4, w) + w
  }

  /** The number of barriers reached on the way to a control state. */
  function ArrivalsAt<D>(cfg: Config<D>, x: nat, pc: Pc<D>): int
    requires cfg.Valid()
  {
    match pc
    case Transpose(k, _) => k
    case AtTransposeBarrier(k) => k + 1
    case Multiply(i, j, _, _, _) => cfg.lda + Turns(i, cfg.share) + (j - cfg.Lo(x))
    case Store(i, j, _, _) => cfg.lda + Turns(i, cfg.share) + (j - cfg.Lo(x))
    case AtProductBarrier(i, j) => cfg.lda + Turns(i, cfg.share) + (j - cfg.Lo(x)) + 1
    case Finished => TotalBarriers(cfg)
  }

  /** The number of barriers in the whole program, the same for every core. */
  function TotalBarriers<D>(cfg: Config<D>): int
    requires cfg.Valid()
  {
    cfg.lda + Turns(cfg.lda, cfg.share)
  }

  // ----- the invariant -----

  ghost predicate Located<D>(cfg: Config<D>, x: nat, core: Core<D>)
    requires cfg.Valid()
  {
    InProgram(cfg, x, core.pc) && core.arrivals == ArrivalsAt(cfg, x, core.pc)
  }

  ghost predicate AllLocated<D>(cfg: Config<D>, cores: seq<Core<D>>)
    requires cfg.Valid()
  {
    |cores| == cfg.ncores && forall x :: 0 <= x < cfg.ncores ==> Located(cfg, x, cores[x])
  }

  /** No core is past a barrier that another has not reached. */
  ghost predicate InStep<D>(cores: seq<Core<D>>) {
    forall x, y :: 0 <= x < |cores| && 0 <= y < |cores| ==> cores[x].Passed() <= cores[y].arrivals
  }

  ghost predicate BufferOk<D>(cfg: Config<D>, s: State<D>, x: nat)
    requires Shaped(cfg, s) && x < cfg.ncores
  {
    forall r: nat, k: nat :: cfg.Lo(x) <= r < cfg.Hi(x) && k < cfg.lda && Transposed(s.cores[x].pc, r, k) ==>
      Holds(s.bb, Flat(cfg.lda, r, k), cfg.B, Flat(cfg.lda, k, r))
  }

  ghost predicate Holds<D>(a: seq<D>, i: nat, b: seq<D>, j: nat) {
    i < |a| && j < |b| && a[i] == b[j]
  }

  ghost predicate ResultOk<D>(cfg: Config<D>, s: State<D>, x: nat)
    requires Shaped(cfg, s) && x < cfg.ncores
  {
    forall r: nat, c: nat :: cfg.Lo(x) <= r < cfg.Hi(x) && r < cfg.lda && c < cfg.lda && Stored(s.cores[x].pc, r, c) ==>
      IsProduct(cfg, s.c, r, c)
  }

  ghost predicate IsProduct<D>(cfg: Config<D>, C: seq<D>, r: nat, c: nat)
    requires cfg.Valid() && r < cfg.lda && c < cfg.lda
  {
    Flat(cfg.lda, r, c) < |C| && C[Flat(cfg.lda, r, c)] == cfg.Product(r, c, cfg.lda)
  }

  /** How many terms the q-th of the four sums holds after n of the 32 statements of a round that started at k. */
  function Terms(k: nat, n: nat, q: nat): nat {
    k + if n <= 8 * q then 0 else if n - 8 * q >= 8 then 8 else n - 8 * q
  }

  /** The four running sums are initial parts of the scalar products. */
  ghost predicate PartialSums<D>(cfg: Config<D>, i: nat, j: nat, k: nat, n: nat, c: seq<D>)
    requires cfg.Valid() && i + 4 <= cfg.lda && j < cfg.lda && k + 8 <= cfg.lda && |c| == 4
  {
    forall q: nat :: q < 4 ==> c[q] == cfg.Product(j, i + q, Terms(k, n, q))
  }

  ghost predicate SumsOk<D>(cfg: Config<D>, x: nat, pc: Pc<D>)
    requires cfg.Valid() && x < cfg.ncores && InProgram(cfg, x, pc)
  {
    cfg.Shares(x);
    match pc
    case Multiply(i, j, k, n, c) => PartialSums(cfg, i, j, k, n, c)
    case Store(i, j, m, c) => PartialSums(cfg, i, j, cfg.lda - 8, 32, c)
    case _ => true
  }

  ghost predicate Inv<D>(cfg: Config<D>, s: State<D>) {
    && Shaped(cfg, s) && InStep(s.cores)
    && AllLocated(cfg, s.cores)
    && (forall x :: 0 <= x < cfg.ncores ==> BufferOk(cfg, s, x))
    && (forall x :: 0 <= x < cfg.ncores ==> ResultOk(cfg, s, x))
    && (forall x :: 0 <= x < cfg.ncores ==> SumsOk(cfg, x, s.cores[x].pc))
  }

  // ----- every step keeps the invariant -----

  lemma LocatedNext<D>(cfg: Config<D>, s: State<D>, x: nat)
    requires Shaped(cfg, s) && Enabled(s, x) && Located(cfg, x, s.cores[x])
    ensures Located(cfg, x, Step(cfg, s, x).cores[x])
  {
    match s.cores[x].pc
    case AtProductBarrier(_, _) => LocatedAfterBarrier(cfg, s, x);
    case Multiply(_, _, _, _, _) => LocatedInRound(cfg, s, x);
    case _ => LocatedElsewhere(cfg, s, x);
  }

  lemma LocatedAfterBarrier<D>(cfg: Config<D>, s: State<D>, x: nat)
    requires Shaped(cfg, s) && Enabled(s, x) && Located(cfg, x, s.cores[x]) && s.cores[x].pc.AtProductBarrier?
    ensures Located(cfg, x, Step(cfg, s, x).cores[x])
  {
    cfg.Shares(x);
    var AtProductBarrier(i, j) := s.cores[x].pc;
    NextBlock(i, cfg.lda);
    assert Turns(i + 4, cfg.share) == Turns(i, cfg.share) + cfg.share;
  }

  lemma NextBlock(i: nat, lda: nat)
    requires i % 4 == 0 && lda % 8 == 0 && i + 4 <= lda
    ensures (i + 4) % 4 == 0 && lda % 4 == 0 && (i + 4 == lda || i + 8 <= lda)
  {
  }

  lemma LocatedInRound<D>(cfg: Config<D>, s: State<D>, x: nat)
    requires Shaped(cfg, s) && Enabled(s, x) && Located(cfg, x, s.cores[x]) && s.cores[x].pc.Multiply?
    ensures Located(cfg, x, Step(cfg, s, x).cores[x])
  {
    assert cfg.lda % 8 == 0;
  }

  lemma LocatedElsewhere<D>(cfg: Config<D>, s: State<D>, x: nat)
    requires Shaped(cfg, s) && Enabled(s, x) && Located(cfg, x, s.cores[x])
    requires !s.cores[x].pc.AtProductBarrier? && !s.cores[x].pc.Multiply?
    ensures Located(cfg, x, Step(cfg, s, x).cores[x])
  {
    cfg.Shares(x);
    assert cfg.lda % 8 == 0;
  }

  lemma InStepNext<D>(cfg: Config<D>, s: State<D>, x: nat)
    requires Inv(cfg, s) && Enabled(s, x)
    ensures InStep(Step(cfg, s, x).cores)
  {
    var s' := Step(cfg, s, x);
    forall y, z | 0 <= y < cfg.ncores && 0 <= z < cfg.ncores ensures s'.cores[y].Passed() <= s'.cores[z].arrivals {
      assert s.cores[y].Passed() <= s.cores[z].arrivals;
      assert s'.cores[z].arrivals >= s.cores[z].arrivals;
    }
  }

  lemma AfterTransposition<D>(cfg: Config<D>, x: nat, core: Core<D>, r: nat, k: nat)
    requires cfg.Valid() && Located(cfg, x, core) && core.arrivals >= cfg.lda && k < cfg.lda
    ensures Transposed(core.pc, r, k)
  {
  }

  /** A core past the transposition sees the whole of B transposed, whoever wrote it. */
  lemma AllTransposed<D>(cfg: Config<D>, s: State<D>, x: nat, r: nat, k: nat)
    requires Inv(cfg, s) && x < cfg.ncores && s.cores[x].pc.Multiply? && r < cfg.lda && k < cfg.lda
    ensures Holds(s.bb, Flat(cfg.lda, r, k), cfg.B, Flat(cfg.lda, k, r))
  {
    var y := cfg.Owner(r);
    assert s.cores[y].arrivals >= cfg.lda by {
      assert Located(cfg, x, s.cores[x]);
      assert s.cores[x].Passed() <= s.cores[y].arrivals;
    }
    AfterTransposition(cfg, y, s.cores[y], r, k);
    assert BufferOk(cfg, s, y);
  }

  lemma TransposedNext<D>(cfg: Config<D>, s: State<D>, x: nat, y: nat, r: nat, k: nat)
    requires Shaped(cfg, s) && Enabled(s, x) && Located(cfg, x, s.cores[x]) && y < cfg.ncores
    requires cfg.Lo(y) <= r < cfg.Hi(y) && k < cfg.lda && Transposed(Step(cfg, s, x).cores[y].pc, r, k)
    ensures || Transposed(s.cores[y].pc, r, k)
            || (x == y && s.cores[x].pc == Transpose(k, r))
  {
  }

  lemma BufferNext<D>(cfg: Config<D>, s: State<D>, x: nat, y: nat)
    requires Shaped(cfg, s) && Enabled(s, x) && y < cfg.ncores && Located(cfg, x, s.cores[x]) && BufferOk(cfg, s, y)
    ensures BufferOk(cfg, Step(cfg, s, x), y)
  {
    var s', lda := Step(cfg, s, x), cfg.lda;
    forall r: nat, k: nat | cfg.Lo(y) <= r < cfg.Hi(y) && k < lda && Transposed(s'.cores[y].pc, r, k)
      ensures Holds(s'.bb, Flat(lda, r, k), cfg.B, Flat(lda, k, r))
    {
      cfg.Shares(y);
      TransposedNext(cfg, s, x, y, r, k);
      HoldsNext(cfg, s, x, r, k, Transposed(s.cores[y].pc, r, k));
    }
  }

  lemma HoldsNext<D>(cfg: Config<D>, s: State<D>, x: nat, r: nat, k: nat, written: bool)
    requires Shaped(cfg, s) && Enabled(s, x) && InProgram(cfg, x, s.cores[x].pc) && r < cfg.lda && k < cfg.lda
    requires written ==> Holds(s.bb, Flat(cfg.lda, r, k), cfg.B, Flat(cfg.lda, k, r))
    requires written || (s.cores[x].pc == Transpose(k, r) && r < cfg.Hi(x))
    ensures Holds(Step(cfg, s, x).bb, Flat(cfg.lda, r, k), cfg.B, Flat(cfg.lda, k, r))
  {
    FlatInRange(cfg.lda, k, r);
    FlatInRange(cfg.lda, r, k);
    cfg.Shares(x);
    match s.cores[x].pc
    case Transpose(k', i) =>
      if i < cfg.Hi(x) && Flat(cfg.lda, r, k) == Flat(cfg.lda, i, k') {
        FlatInjective(cfg.lda, r, k, i, k');
      }
    case _ =>
  }

  lemma StoredNext<D>(cfg: Config<D>, s: State<D>, x: nat, y: nat, r: nat, c: nat)
    requires Shaped(cfg, s) && Enabled(s, x) && Located(cfg, x, s.cores[x]) && y < cfg.ncores
    requires cfg.Lo(y) <= r < cfg.Hi(y) && c < cfg.lda && Stored(Step(cfg, s, x).cores[y].pc, r, c)
    ensures || Stored(s.cores[y].pc, r, c)
            || (x == y && s.cores[x].pc.Store? && s.cores[x].pc.m < 4 && r == s.cores[x].pc.j
                && c == s.cores[x].pc.i + s.cores[x].pc.m)
  {
  }

  lemma ResultNext<D>(cfg: Config<D>, s: State<D>, x: nat, y: nat)
    requires Shaped(cfg, s) && Enabled(s, x) && y < cfg.ncores && Located(cfg, x, s.cores[x])
    requires ResultOk(cfg, s, y) && SumsOk(cfg, x, s.cores[x].pc)
    ensures ResultOk(cfg, Step(cfg, s, x), y)
  {
    var s', lda := Step(cfg, s, x), cfg.lda;
    forall r: nat, c: nat | cfg.Lo(y) <= r < cfg.Hi(y) && r < lda && c < lda && Stored(s'.cores[y].pc, r, c)
      ensures IsProduct(cfg, s'.c, r, c)
    {
      StoredNext(cfg, s, x, y, r, c);
      ProductNext(cfg, s, x, r, c, Stored(s.cores[y].pc, r, c));
    }
  }

  lemma ProductNext<D>(cfg: Config<D>, s: State<D>, x: nat, r: nat, c: nat, stored: bool)
    requires Shaped(cfg, s) && Enabled(s, x) && InProgram(cfg, x, s.cores[x].pc) && SumsOk(cfg, x, s.cores[x].pc)
    requires r < cfg.lda && c < cfg.lda && (stored ==> IsProduct(cfg, s.c, r, c))
    requires stored || (s.cores[x].pc.Store? && s.cores[x].pc.m < 4 && r == s.cores[x].pc.j
                        && c == s.cores[x].pc.i + s.cores[x].pc.m)
    ensures IsProduct(cfg, Step(cfg, s, x).c, r, c)
  {
    FlatInRange(cfg.lda, r, c);
    cfg.Shares(x);
    match s.cores[x].pc
    case Store(i, j, m, _) =>
      if m < 4 && Flat(cfg.lda, r, c) == Flat(cfg.lda, j, i + m) {
        FlatInjective(cfg.lda, r, c, j, i + m);
      }
    case _ =>
  }

  /** One statement of a round adds the next term to one sum. */
  lemma TermAdded<D>(cfg: Config<D>, i: nat, j: nat, k: nat, n: nat, c: seq<D>, b: D)
    requires cfg.Valid() && i + 4 <= cfg.lda && j < cfg.lda && k + 8 <= cfg.lda && n < 32 && |c| == 4
    requires PartialSums(cfg, i, j, k, n, c)
    requires Flat(cfg.lda, k + n % 8, i + n / 8) < |cfg.B| && b == cfg.B[Flat(cfg.lda, k + n % 8, i + n / 8)]
    requires Flat(cfg.lda, j, k + n % 8) < |cfg.A|
    ensures var sum := cfg.op.add(c[n / 8], cfg.op.mul(cfg.A[Flat(cfg.lda, j, k + n % 8)], b));
            PartialSums(cfg, i, j, k, n + 1, c[n / 8 := sum])
  {
    forall q: nat | q < 4 ensures Terms(k, n + 1, q) == Terms(k, n, q) + if q == n / 8 then 1 else 0 {
    }
    assert Terms(k, n, n / 8) == k + n % 8;
  }

  lemma SumsNext<D>(cfg: Config<D>, s: State<D>, x: nat)
    requires Inv(cfg, s) && Enabled(s, x) && Located(cfg, x, Step(cfg, s, x).cores[x])
    ensures SumsOk(cfg, x, Step(cfg, s, x).cores[x].pc)
  {
    assert Located(cfg, x, s.cores[x]);
    cfg.Shares(x);
    match s.cores[x].pc
    case Multiply(i, j, k, n, c) =>
      if n < 32 {
        AllTransposed(cfg, s, x, i + n / 8, k + n % 8);
        SumAdvances(cfg, s, x, i, j, k, n, c);
      } else {
        RoundEnds(cfg, s, x, i, j, k, c);
      }
    case AtTransposeBarrier(_) => SumsStart(cfg, s, x);
    case AtProductBarrier(_, _) => SumsStart(cfg, s, x);
    case _ =>
  }

  lemma SumAdvances<D>(cfg: Config<D>, s: State<D>, x: nat, i: nat, j: nat, k: nat, n: nat, c: seq<D>)
    requires Shaped(cfg, s) && Enabled(s, x) && s.cores[x].pc == Multiply(i, j, k, n, c) && n < 32
    requires Located(cfg, x, s.cores[x]) && SumsOk(cfg, x, s.cores[x].pc)
    requires i + n / 8 < cfg.lda && k + n % 8 < cfg.lda
    requires Holds(s.bb, Flat(cfg.lda, i + n / 8, k + n % 8), cfg.B, Flat(cfg.lda, k + n % 8, i + n / 8))
    ensures InProgram(cfg, x, Step(cfg, s, x).cores[x].pc) && SumsOk(cfg, x, Step(cfg, s, x).cores[x].pc)
  {
    cfg.Shares(x);
    FlatInRange(cfg.lda, j, k + n % 8);
    var b := s.bb[Flat(cfg.lda, i + n / 8, k + n % 8)];
    StepAdds(cfg, s, x, i, j, k, n, c, b);
    TermAdded(cfg, i, j, k, n, c, b);
  }

  lemma StepAdds<D>(cfg: Config<D>, s: State<D>, x: nat, i: nat, j: nat, k: nat, n: nat, c: seq<D>, b: D)
    requires Shaped(cfg, s) && Enabled(s, x) && s.cores[x].pc == Multiply(i, j, k, n, c) && n < 32
    requires InProgram(cfg, x, s.cores[x].pc)
    requires Flat(cfg.lda, i + n / 8, k + n % 8) < |s.bb| && b == s.bb[Flat(cfg.lda, i + n / 8, k + n % 8)]
    requires Flat(cfg.lda, j, k + n % 8) < |cfg.A|
    ensures var sum := cfg.op.add(c[n / 8], cfg.op.mul(cfg.A[Flat(cfg.lda, j, k + n % 8)], b));
            Step(cfg, s, x).cores[x].pc == Multiply(i, j, k, n + 1, c[n / 8 := sum])
  {
    assert s.cores[x].pc.Multiply?;
  }

  lemma RoundEnds<D>(cfg: Config<D>, s: State<D>, x: nat, i: nat, j: nat, k: nat, c: seq<D>)
    requires Shaped(cfg, s) && Enabled(s, x) && s.cores[x].pc == Multiply(i, j, k, 32, c)
    requires Located(cfg, x, s.cores[x]) && SumsOk(cfg, x, s.cores[x].pc)
    requires InProgram(cfg, x, Step(cfg, s, x).cores[x].pc)
    ensures SumsOk(cfg, x, Step(cfg, s, x).cores[x].pc)
  {
    cfg.Shares(x);
    if k + 8 < cfg.lda {
      NextRound(cfg, i, j, k, c);
    } else {
      assert k == cfg.lda - 8;
    }
  }

  lemma NextRound<D>(cfg: Config<D>, i: nat, j: nat, k: nat, c: seq<D>)
    requires cfg.Valid() && i + 4 <= cfg.lda && j < cfg.lda && k + 16 <= cfg.lda && |c| == 4
    requires PartialSums(cfg, i, j, k, 32, c)
    ensures PartialSums(cfg, i, j, k + 8, 0, c)
  {
    assert forall q: nat :: q < 4 ==> Terms(k, 32, q) == k + 8 && Terms(k + 8, 0, q) == k + 8;
  }

  lemma SumsStart<D>(cfg: Config<D>, s: State<D>, x: nat)
    requires Shaped(cfg, s) && Enabled(s, x) && s.cores[x].Waiting() && Located(cfg, x, s.cores[x])
    requires InProgram(cfg, x, Step(cfg, s, x).cores[x].pc)
    ensures SumsOk(cfg, x, Step(cfg, s, x).cores[x].pc)
  {
    cfg.Shares(x);
    forall i: nat, j: nat | i + 4 <= cfg.lda && j < cfg.lda ensures PartialSums(cfg, i, j, 0, 0, FourZeros(cfg)) {
      assert forall q: nat :: q < 4 ==> Terms(0, 0, q) == 0;
    }
  }

  lemma StepKeeps<D>(cfg: Config<D>, s: State<D>, x: nat)
    requires Inv(cfg, s) && Enabled(s, x)
    ensures Inv(cfg, Step(cfg, s, x))
  {
    var s' := Step(cfg, s, x);
    LocatedNext(cfg, s, x);
    InStepNext(cfg, s, x);
    SumsNext(cfg, s, x);
    forall y | 0 <= y < cfg.ncores ensures BufferOk(cfg, s', y) && ResultOk(cfg, s', y) {
      BufferNext(cfg, s, x, y);
      ResultNext(cfg, s, x, y);
    }
  }

  // ----- runs: any interleaving -----

  /** Every core enters the kernel; the buffer and C hold anything. */
  function Start<D>(cfg: Config<D>, bb: seq<D>, c: seq<D>): (s: State<D>)
    requires cfg.Valid() && |bb| >= Size(cfg.lda) && |c| >= Size(cfg.lda)
    ensures Shaped(cfg, s)
  {
    State(bb, c, seq(cfg.ncores, x requires 0 <= x < cfg.ncores => Core(Transpose(0, cfg.Lo(x)), 0)))
  }

  lemma StartOk<D>(cfg: Config<D>, bb: seq<D>, c: seq<D>)
    requires cfg.Valid() && |bb| >= Size(cfg.lda) && |c| >= Size(cfg.lda)
    ensures Inv(cfg, Start(cfg, bb, c))
  {
    forall x | 0 <= x < cfg.ncores ensures Located(cfg, x, Start(cfg, bb, c).cores[x]) {
      cfg.Shares(x);
    }
  }

  /** A core that is picked while it must wait, or after it has finished, does nothing. */
  ghost function Next<D>(cfg: Config<D>, s: State<D>, x: nat): (s': State<D>)
    requires Inv(cfg, s)
    ensures Inv(cfg, s')
  {
    if Enabled(s, x) then
      StepKeeps(cfg, s, x);
      assert Located(cfg, x, s.cores[x]);
      Step(cfg, s, x)
    else s
  }

  /** The cores run in the order the schedule picks them. */
  ghost function RunSchedule<D>(cfg: Config<D>, s: State<D>, schedule: seq<nat>): (s': State<D>)
    requires Inv(cfg, s)
    ensures Inv(cfg, s')
    decreases |schedule|
  {
    if schedule == [] then s else RunSchedule(cfg, Next(cfg, s, schedule[0]), schedule[1..])
  }

  /** The state that a schedule leads to, from the entry of the kernel. */
  ghost function Reached<D>(cfg: Config<D>, bb: seq<D>, c: seq<D>, schedule: seq<nat>): (s: State<D>)
    requires cfg.Valid() && |bb| >= Size(cfg.lda) && |c| >= Size(cfg.lda)
    ensures Inv(cfg, s)
  {
    StartOk(cfg, bb, c);
    RunSchedule(cfg, Start(cfg, bb, c), schedule)
  }

  /** Every read of the buffer in the product phase of any run sees B transposed. */
  lemma ReadsAreTransposed<D>(cfg: Config<D>, bb: seq<D>, c: seq<D>, schedule: seq<nat>, x: nat, r: nat, k: nat)
    requires cfg.Valid() && |bb| >= Size(cfg.lda) && |c| >= Size(cfg.lda) && x < cfg.ncores && r < cfg.lda && k < cfg.lda
    requires Reached(cfg, bb, c, schedule).cores[x].pc.Multiply?
    ensures Holds(Reached(cfg, bb, c, schedule).bb, Flat(cfg.lda, r, k), cfg.B, Flat(cfg.lda, k, r))
  {
    AllTransposed(cfg, Reached(cfg, bb, c, schedule), x, r, k);
  }

  // ----- no core waits for ever -----

  lemma {:induction false} TurnsGrow(i: nat, lda: nat, w: nat)
    requires i % 4 == 0 && lda % 4 == 0 && i <= lda
    ensures Turns(i, w) <= Turns(lda, w)
  {
    if i < lda {
      TurnsGrow(i, lda - 4, w);
    }
  }

  lemma ArrivalsBounded<D>(cfg: Config<D>, x: nat, core: Core<D>)
    requires cfg.Valid() && x < cfg.ncores && Located(cfg, x, core) && core.Waiting()
    ensures core.arrivals <= TotalBarriers(cfg)
  {
    cfg.Shares(x);
    match core.pc
    case AtProductBarrier(i, j) =>
      NextBlock(i, cfg.lda);
      TurnsGrow(i + 4, cfg.lda, cfg.share);
      assert Turns(i + 4, cfg.share) == Turns(i, cfg.share) + cfg.share;
    case AtTransposeBarrier(_) =>
  }

  /** The waiting core, among the first n, that has reached the fewest barriers. */
  lemma {:induction false} LeastArrivals<D>(cores: seq<Core<D>>, n: nat) returns (x: nat)
    requires n <= |cores| && exists y :: 0 <= y < n && !cores[y].pc.Finished?
    ensures x < n && !cores[x].pc.Finished?
    ensures forall y :: 0 <= y < n && !cores[y].pc.Finished? ==> cores[x].arrivals <= cores[y].arrivals
  {
    if exists y :: 0 <= y < n - 1 && !cores[y].pc.Finished? {
      x := LeastArrivals(cores, n - 1);
      if !cores[n - 1].pc.Finished? && cores[n - 1].arrivals < cores[x].arrivals {
        x := n - 1;
      }
    } else {
      x := n - 1;
    }
  }

  lemma NoDeadlock<D>(cfg: Config<D>, s: State<D>) returns (x: nat)
    requires Inv(cfg, s) && exists y :: 0 <= y < cfg.ncores && !s.cores[y].pc.Finished?
    ensures Enabled(s, x)
  {
    x := LeastArrivals(s.cores, cfg.ncores);
    if s.cores[x].Waiting() {
      forall y | 0 <= y < cfg.ncores ensures s.cores[y].arrivals >= s.cores[x].arrivals {
        assert Located(cfg, x, s.cores[x]) && Located(cfg, y, s.cores[y]);
        ArrivalsBounded(cfg, x, s.cores[x]);
      }
    }
  }

  /** Whatever the schedule, when no core can move all have returned, after the same number of barriers, and C is A*B. */
  lemma StuckMeansDone<D>(cfg: Config<D>, bb: seq<D>, c: seq<D>, schedule: seq<nat>)
    requires cfg.Valid() && |bb| >= Size(cfg.lda) && |c| >= Size(cfg.lda)
    ensures var s := Reached(cfg, bb, c, schedule);
            (forall x: nat :: !Enabled(s, x)) ==>
              && (forall x :: 0 <= x < cfg.ncores ==> s.cores[x].pc.Finished? && s.cores[x].arrivals == TotalBarriers(cfg))
              && (forall r: nat, k: nat :: r < cfg.lda && k < cfg.lda ==> IsProduct(cfg, s.c, r, k))
  {
    var s := Reached(cfg, bb, c, schedule);
    if forall x: nat :: !Enabled(s, x) {
      if exists y :: 0 <= y < cfg.ncores && !s.cores[y].pc.Finished? {
        var x := NoDeadlock(cfg, s);
      }
      forall x | 0 <= x < cfg.ncores ensures s.cores[x].pc.Finished? && s.cores[x].arrivals == TotalBarriers(cfg) {
        assert Located(cfg, x, s.cores[x]);
      }
      forall r: nat, k: nat | r < cfg.lda && k < cfg.lda ensures IsProduct(cfg, s.c, r, k) {
        var x := cfg.Owner(r);
        assert ResultOk(cfg, s, x);
      }
    }
  }

  // ----- every run ends -----

  function Rounds(k: nat): nat { if k < 8 then 0 else Rounds(k - 8) + 33 }

  function Blocks<D>(cfg: Config<D>, i: nat): nat {
    if i < 4 then 0 else Blocks(cfg, i - 4) + Flat(Rounds(cfg.lda) + 6, cfg.share, 0)
  }

  /** The number of statements that core x has executed when it is at pc. */
  function Executed<D>(cfg: Config<D>, x: nat, pc: Pc<D>): int
    requires cfg.Valid() && InProgram(cfg, x, pc)
  {
    var transposition, entry := Flat(cfg.share + 2, cfg.lda, 0), Rounds(cfg.lda) + 6;
    match pc
    case Transpose(k, i) => Flat(cfg.share + 2, k, i - cfg.Lo(x))
    case AtTransposeBarrier(k) => Flat(cfg.share + 2, k, cfg.share + 1)
    case Multiply(i, j, k, n, _) => transposition + Blocks(cfg, i) + Flat(entry, j - cfg.Lo(x), Rounds(k) + n)
    case Store(i, j, m, _) => transposition + Blocks(cfg, i) + Flat(entry, j - cfg.Lo(x), Rounds(cfg.lda) + m)
    case AtProductBarrier(i, j) => transposition + Blocks(cfg, i) + Flat(entry, j - cfg.Lo(x), Rounds(cfg.lda) + 5)
    case Finished => Statements(cfg)
  }

  /** The number of statements of one core. */
  function Statements<D>(cfg: Config<D>): nat
    requires cfg.Valid()
  {
    Flat(cfg.share + 2, cfg.lda, 0) + Blocks(cfg, cfg.lda)
  }

  lemma ExecutedNext<D>(cfg: Config<D>, s: State<D>, x: nat)
    requires Shaped(cfg, s) && Enabled(s, x) && Located(cfg, x, s.cores[x])
    requires InProgram(cfg, x, Step(cfg, s, x).cores[x].pc)
    ensures Executed(cfg, x, Step(cfg, s, x).cores[x].pc) == Executed(cfg, x, s.cores[x].pc) + 1
  {
    match s.cores[x].pc
    case Multiply(i, j, k, n, c) => OneOfRound(cfg, s, x, i, j, k, n, c);
    case AtProductBarrier(i, j) => LastOfEntry(cfg, s, x, i, j);
    case Store(i, j, m, c) => OneStores(cfg, s, x, i, j, m, c);
    case _ => OneTransposes(cfg, s, x);
  }

  lemma OneTransposes<D>(cfg: Config<D>, s: State<D>, x: nat)
    requires Shaped(cfg, s) && Enabled(s, x) && Located(cfg, x, s.cores[x])
    requires s.cores[x].pc.Transpose? || s.cores[x].pc.AtTransposeBarrier?
    requires InProgram(cfg, x, Step(cfg, s, x).cores[x].pc)
    ensures Executed(cfg, x, Step(cfg, s, x).cores[x].pc) == Executed(cfg, x, s.cores[x].pc) + 1
  {
    cfg.Shares(x);
    match s.cores[x].pc
    case Transpose(k, i) => FlatShift(cfg.share + 2, k, i - cfg.Lo(x), 1);
    case AtTransposeBarrier(k) => FlatShift(cfg.share + 2, k, 0, cfg.share + 1);
  }

  lemma OneStores<D>(cfg: Config<D>, s: State<D>, x: nat, i: nat, j: nat, m: nat, c: seq<D>)
    requires Shaped(cfg, s) && Enabled(s, x) && Located(cfg, x, s.cores[x]) && s.cores[x].pc == Store(i, j, m, c)
    requires InProgram(cfg, x, Step(cfg, s, x).cores[x].pc)
    ensures Executed(cfg, x, Step(cfg, s, x).cores[x].pc) == Executed(cfg, x, s.cores[x].pc) + 1
  {
    cfg.Shares(x);
    FlatShift(Rounds(cfg.lda) + 6, j - cfg.Lo(x), Rounds(cfg.lda) + m, 1);
  }

  lemma OneOfRound<D>(cfg: Config<D>, s: State<D>, x: nat, i: nat, j: nat, k: nat, n: nat, c: seq<D>)
    requires Shaped(cfg, s) && Enabled(s, x) && Located(cfg, x, s.cores[x]) && s.cores[x].pc == Multiply(i, j, k, n, c)
    requires InProgram(cfg, x, Step(cfg, s, x).cores[x].pc)
    ensures Executed(cfg, x, Step(cfg, s, x).cores[x].pc) == Executed(cfg, x, s.cores[x].pc) + 1
  {
    FlatShift(Rounds(cfg.lda) + 6, j - cfg.Lo(x), Rounds(k) + n, 1);
    assert Rounds(k + 8) == Rounds(k) + 33;
    if n == 32 && k + 8 >= cfg.lda {
      LastRound(k, cfg.lda);
    }
  }

  lemma LastRound(k: nat, lda: nat)
    requires k % 8 == 0 && lda % 8 == 0 && k + 8 <= lda <= k + 8
    ensures Rounds(lda) == Rounds(k) + 33
  {
  }

  lemma LastOfEntry<D>(cfg: Config<D>, s: State<D>, x: nat, i: nat, j: nat)
    requires Shaped(cfg, s) && Enabled(s, x) && s.cores[x].pc == AtProductBarrier(i, j) && Located(cfg, x, s.cores[x])
    requires InProgram(cfg, x, Step(cfg, s, x).cores[x].pc)
    ensures Executed(cfg, x, Step(cfg, s, x).cores[x].pc) == Executed(cfg, x, s.cores[x].pc) + 1
  {
    cfg.Shares(x);
    NextBlock(i, cfg.lda);
    FlatShift(Rounds(cfg.lda) + 6, j - cfg.Lo(x), 0, Rounds(cfg.lda) + 5);
    assert Flat(Rounds(cfg.lda) + 6, j + 1 - cfg.Lo(x), 0) == Rounds(cfg.lda) + 6 + Flat(Rounds(cfg.lda) + 6, j - cfg.Lo(x), 0);
    assert Blocks(cfg, i + 4) == Blocks(cfg, i) + Flat(Rounds(cfg.lda) + 6, cfg.share, 0);
  }

  /** The statements that the first n cores have executed. */
  ghost function Work<D>(cfg: Config<D>, cores: seq<Core<D>>, n: nat): int
    requires cfg.Valid() && n <= cfg.ncores && AllLocated(cfg, cores)
  {
    if n == 0 then 0 else Work(cfg, cores, n - 1) + Executed(cfg, n - 1, cores[n - 1].pc)
  }

  lemma WorkNext<D>(cfg: Config<D>, s: State<D>, x: nat, n: nat)
    requires Shaped(cfg, s) && Enabled(s, x) && AllLocated(cfg, s.cores) && InProgram(cfg, x, s.cores[x].pc) && n <= cfg.ncores
    requires AllLocated(cfg, Step(cfg, s, x).cores)
    ensures Work(cfg, Step(cfg, s, x).cores, n) == Work(cfg, s.cores, n) + if x < n then 1 else 0
  {
    var cores := Step(cfg, s, x).cores;
    assert Located(cfg, x, cores[x]);
    ExecutedNext(cfg, s, x);
    forall y | 0 <= y < cfg.ncores && y != x ensures cores[y] == s.cores[y] {
      OthersStay(cfg, s, x, y);
    }
    OneWorks(cfg, s.cores, cores, x, n);
  }

  lemma {:induction false} OneWorks<D>(cfg: Config<D>, cores: seq<Core<D>>, cores': seq<Core<D>>, x: nat, n: nat)
    requires cfg.Valid() && AllLocated(cfg, cores) && AllLocated(cfg, cores') && n <= cfg.ncores && x < cfg.ncores
    requires forall y :: 0 <= y < cfg.ncores && y != x ==> cores'[y] == cores[y]
    requires Located(cfg, x, cores[x]) && Located(cfg, x, cores'[x])
    requires Executed(cfg, x, cores'[x].pc) == Executed(cfg, x, cores[x].pc) + 1
    ensures Work(cfg, cores', n) == Work(cfg, cores, n) + if x < n then 1 else 0
  {
    if n > 0 {
      OneWorks(cfg, cores, cores', x, n - 1);
    }
  }

  lemma OthersStay<D>(cfg: Config<D>, s: State<D>, x: nat, y: nat)
    requires Shaped(cfg, s) && Enabled(s, x) && InProgram(cfg, x, s.cores[x].pc) && y < cfg.ncores
    ensures y != x ==> Step(cfg, s, x).cores[y] == s.cores[y]
  {
  }

  lemma {:induction false} WorkAtStart<D>(cfg: Config<D>, bb: seq<D>, c: seq<D>, n: nat)
    requires cfg.Valid() && |bb| >= Size(cfg.lda) && |c| >= Size(cfg.lda) && n <= cfg.ncores && Inv(cfg, Start(cfg, bb, c))
    ensures Work(cfg, Start(cfg, bb, c).cores, n) == 0
  {
    if n > 0 {
      WorkAtStart(cfg, bb, c, n - 1);
    }
  }

  /** No core is ever picked in vain. */
  ghost predicate NeverIdle<D>(cfg: Config<D>, s: State<D>, schedule: seq<nat>)
    requires Inv(cfg, s)
    decreases |schedule|
  {
    schedule == [] || (Enabled(s, schedule[0]) && NeverIdle(cfg, Next(cfg, s, schedule[0]), schedule[1..]))
  }

  lemma {:induction false} WorkOfRun<D>(cfg: Config<D>, s: State<D>, schedule: seq<nat>)
    requires Inv(cfg, s) && NeverIdle(cfg, s, schedule)
    ensures Work(cfg, RunSchedule(cfg, s, schedule).cores, cfg.ncores) == Work(cfg, s.cores, cfg.ncores) + |schedule|
    decreases |schedule|
  {
    if schedule != [] {
      StepKeeps(cfg, s, schedule[0]);
      assert Located(cfg, schedule[0], s.cores[schedule[0]]);
      WorkNext(cfg, s, schedule[0], cfg.ncores);
      WorkOfRun(cfg, Next(cfg, s, schedule[0]), schedule[1..]);
    }
  }

  lemma {:induction false} WorkBounded<D>(cfg: Config<D>, cores: seq<Core<D>>, n: nat)
    requires cfg.Valid() && n <= cfg.ncores && AllLocated(cfg, cores)
    ensures Work(cfg, cores, n) <= Flat(Statements(cfg), n, 0)
    ensures Work(cfg, cores, n) == Flat(Statements(cfg), n, 0) <==> forall x :: 0 <= x < n ==> cores[x].pc.Finished?
  {
    if n > 0 {
      WorkBounded(cfg, cores, n - 1);
      StatementsLeft(cfg, n - 1, cores[n - 1].pc);
    }
  }

  lemma StatementsLeft<D>(cfg: Config<D>, x: nat, pc: Pc<D>)
    requires cfg.Valid() && x < cfg.ncores && InProgram(cfg, x, pc)
    ensures Executed(cfg, x, pc) <= Statements(cfg)
    ensures Executed(cfg, x, pc) == Statements(cfg) <==> pc.Finished?
  {
    cfg.Shares(x);
    var w := cfg.share + 2;
    match pc
    case Transpose(k, i) => FlatRows(w, k, i - cfg.Lo(x), cfg.lda);
    case AtTransposeBarrier(k) => FlatRows(w, k, cfg.share + 1, cfg.lda);
    case Multiply(i, j, k, n, _) =>
      RoundsGrow(k, cfg.lda);
      EntryLeft(cfg, i, j - cfg.Lo(x), Rounds(k) + n);
    case Store(i, j, m, _) => EntryLeft(cfg, i, j - cfg.Lo(x), Rounds(cfg.lda) + m);
    case AtProductBarrier(i, j) => EntryLeft(cfg, i, j - cfg.Lo(x), Rounds(cfg.lda) + 5);
    case Finished =>
  }

  lemma {:induction false} RoundsGrow(k: nat, lda: nat)
    requires k % 8 == 0 && lda % 8 == 0 && k + 8 <= lda
    ensures Rounds(k) + 33 <= Rounds(lda)
  {
    if k + 8 < lda {
      RoundsGrow(k, lda - 8);
    } else {
      LastRound(k, lda);
    }
  }

  lemma {:induction false} BlocksGrow<D>(cfg: Config<D>, i: nat, n: nat)
    requires i % 4 == 0 && n % 4 == 0 && i <= n
    ensures Blocks(cfg, i) <= Blocks(cfg, n)
  {
    if i < n {
      BlocksGrow(cfg, i, n - 4);
    }
  }

  lemma EntryLeft<D>(cfg: Config<D>, i: nat, j: nat, done: nat)
    requires cfg.Valid() && i % 4 == 0 && i + 4 <= cfg.lda && j < cfg.share && done < Rounds(cfg.lda) + 6
    ensures Blocks(cfg, i) + Flat(Rounds(cfg.lda) + 6, j, done) < Blocks(cfg, cfg.lda)
  {
    NextBlock(i, cfg.lda);
    BlocksGrow(cfg, i + 4, cfg.lda);
    FlatRows(Rounds(cfg.lda) + 6, j, done, cfg.share);
    assert Blocks(cfg, i + 4) == Blocks(cfg, i) + Flat(Rounds(cfg.lda) + 6, cfg.share, 0);
  }

  /** A run never takes more than ncores * Statements() steps, and takes exactly that many when all cores return. */
  lemma EveryRunEnds<D>(cfg: Config<D>, bb: seq<D>, c: seq<D>, schedule: seq<nat>)
    requires cfg.Valid() && |bb| >= Size(cfg.lda) && |c| >= Size(cfg.lda) && Inv(cfg, Start(cfg, bb, c))
    requires NeverIdle(cfg, Start(cfg, bb, c), schedule)
    ensures |schedule| <= cfg.ncores * Statements(cfg)
    ensures |schedule| == cfg.ncores * Statements(cfg) <==>
            forall x :: 0 <= x < cfg.ncores ==> Reached(cfg, bb, c, schedule).cores[x].pc.Finished?
  {
    WorkOfRun(cfg, Start(cfg, bb, c), schedule);
    WorkAtStart(cfg, bb, c, cfg.ncores);
    WorkBounded(cfg, Reached(cfg, bb, c, schedule).cores, cfg.ncores);
    FlatIsProduct(Statements(cfg), cfg.ncores, 0);
  }
}
