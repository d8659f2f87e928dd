/** CoreMark's matrix kernel: constants added to A and taken away again, around four products that only write C. */
module MatrixTest {
  import opened Bits
  import opened Crc
  import opened Matrices
  import opened Words

  const S16: int := 0x8000
  const S32: int := 0x8000_0000

  /** Two's complement of 16 and of 32 bits. */
  function Wrap16(x: int): int { (x + S16) % 0x1_0000 - S16 }

  function Wrap32(x: int): int { (x + S32) % 0x1_0000_0000 - S32 }

  predicate IsS16(x: int) { -S16 <= x < S16 }

  /** Bits from..from+to of a 32-bit number, by an arithmetic shift; the divisor is 2^from and the modulus 2^to. */
  function BitExtract(x: int, divisor: nat, modulus: nat): nat
    requires divisor > 0 && modulus > 0
  {
    x / divisor % modulus
  }

  /** MATRES: 32-bit sums of products, or of two bit fields of them. */
  const PLAIN: Arithmetic<int> := Arithmetic(0, (x: int, y: int) => Wrap32(x + y), (x: int, y: int) => Wrap32(x * y))

  const BIT_FIELDS: Arithmetic<int> :=
    Arithmetic(0, (x: int, y: int) => Wrap32(x + y),
               (x: int, y: int) => BitExtract(Wrap32(x * y), 4, 16) * BitExtract(Wrap32(x * y), 32, 128))

  /** Wrapping around changes a number by a multiple of 2^16 or 2^32, into the range. */
  lemma WrapsAre(x: int)
    ensures IsS16(Wrap16(x)) && (Wrap16(x) - x) % 0x1_0000 == 0
    ensures -S32 <= Wrap32(x) < S32 && (Wrap32(x) - x) % 0x1_0000_0000 == 0
  {
  }

  lemma WrapAgain(x: int, y: int, z: int)
    requires y == Wrap32(x)
    ensures Wrap32(y + z) == Wrap32(x + z)
  {
  }

  lemma ScoreAgain(x: int, y: int, z: int)
    requires y == Wrap16(x)
    ensures Wrap16(y + z) == Wrap16(x + z)
  {
  }

  /** A product of bit fields: bits 2 to 5 of the 32-bit product by bits 5 to 11 of it. */
  lemma BitFieldsAre(x: int, y: int, z: nat) returns (p: nat, q: nat)
    requires z == x * y % 0x1_0000_0000
    ensures BIT_FIELDS.mul(x, y) == p * q
    ensures forall b: nat :: IsSet(p, b) <==> b < 4 && IsSet(z, b + 2)
    ensures forall b: nat :: IsSet(q, b) <==> b < 7 && IsSet(z, b + 5)
  {
    var w := Wrap32(x * y);
    p, q := BitExtract(w, 4, 16), BitExtract(w, 32, 128);
    FieldOf(x * y, w, z);
    forall b: nat ensures IsSet(p, b) <==> b < 4 && IsSet(z, b + 2) {
      assert Pow2(2) == 4 && Pow2(4) == 16;
      FieldBits(z, 2, 4, z / 4, p, b);
    }
    forall b: nat ensures IsSet(q, b) <==> b < 7 && IsSet(z, b + 5) {
      assert Pow2(5) == 32 && Pow2(7) == 128;
      FieldBits(z, 5, 7, z / 32, q, b);
    }
  }

  lemma FieldOf(x: int, w: int, z: nat)
    requires w == Wrap32(x) && z == x % 0x1_0000_0000
    ensures w / 4 % 16 == z / 4 % 16 && w / 32 % 128 == z / 32 % 128
  {
    if w != z {
      WrapsAround(x, w, z);
      assert w / 4 == z / 4 - 0x4000_0000 && w / 32 == z / 32 - 0x800_0000;
      AddedBlocks(w / 4, 0x400_0000, 16);
      AddedBlocks(w / 32, 0x10_0000, 128);
    }
  }

  lemma WrapsAround(x: int, w: int, z: nat)
    requires w == Wrap32(x) && z == x % 0x1_0000_0000
    ensures w == z || w == z - 0x1_0000_0000
  {
  }

  lemma AddedBlocks(x: int, k: nat, m: nat)
    requires m > 0
    ensures (x + k * m) % m == x % m
  {
    var q, r := x / m, x % m;
    assert x + k * m == (q + k) * m + r;
    DivModUnique(x + k * m, m, q + k, r);
  }

  /** The bits of a field. */
  lemma FieldBits(z: nat, from: nat, to: nat, q: nat, r: nat, b: nat)
    requires q == z / Pow2(from) && r == q % Pow2(to)
    ensures IsSet(r, b) <==> b < to && IsSet(z, b + from)
  {
    ModAt(q, to, b);
    DividedAt(z, from, b, q);
  }

  // ----- the constant -----

  /** The first n entries with a constant added. */
  function Added(s: seq<int>, n: nat, val: int): (r: seq<int>)
    requires n <= |s|
    ensures |r| == |s|
  {
    seq(|s|, k requires 0 <= k < |s| => if k < n then Wrap16(s[k] + val) else s[k])
  }

  lemma BackAgain(x: int, val: int)
    requires IsS16(x) && IsS16(val)
    ensures Wrap16(Wrap16(x + val) + Wrap16(-val)) == x
  {
  }

  /** Taking the constant away again restores every 16-bit matrix, for the most negative constant too. */
  lemma AddedAndTaken(s: seq<int>, n: nat, val: int)
    requires n <= |s| && (forall k :: 0 <= k < |s| ==> IsS16(s[k])) && IsS16(val)
    ensures Added(Added(s, n, val), n, Wrap16(-val)) == s
  {
    forall k | 0 <= k < |s| ensures Added(Added(s, n, val), n, Wrap16(-val))[k] == s[k] {
      BackAgain(s[k], val);
    }
  }

  method AddConst(N: nat, A: array<int>, val: int)
    requires Size(N) <= A.Length
    modifies A
    ensures A[..] == Added(old(A[..]), Size(N), val)
  {
    ghost var s := A[..];
    assert Added(s, 0, val) == s;
    for i := 0 to N
      invariant Flat(N, i, 0) <= |s| && A[..] == Added(s, Flat(N, i, 0), val)
    {
      for j := 0 to N
        invariant Flat(N, i, j) <= |s| && A[..] == Added(s, Flat(N, i, j), val)
      {
        FlatInRange(N, i, j);
        FlatShift(N, i, j, 1);
        ghost var before, k := A[..], Flat(N, i, j);
        A[Flat(N, i, j)] := Wrap16(A[Flat(N, i, j)] + val);
        assert A[..] == before[k := Wrap16(s[k] + val)] == Added(s, k + 1, val);
      }
      FlatShift(N, i, 0, N);
    }
  }

  // ----- the products -----

  ghost predicate IsProduct(op: Arithmetic<int>, N: nat, A: seq<int>, B: seq<int>, C: seq<int>, i: nat, j: nat)
    requires |A| == |B| == Size(N) <= |C| && i < N && j < N
  {
    FlatInRange(N, i, j);
    C[Flat(N, i, j)] == Dot(op, N, A, B, i, j, op.zero, N)
  }

  /** `matrix_mul_matrix`, and with the arithmetic of bit fields `matrix_mul_matrix_bitextract`. */
  method MulMatrix(op: Arithmetic<int>, N: nat, C: array<int>, A: array<int>, B: array<int>)
    requires A.Length == B.Length == Size(N) <= C.Length && C != A && C != B
    modifies C
    ensures forall i: nat, j: nat :: i < N && j < N ==> IsProduct(op, N, A[..], B[..], C[..], i, j)
  {
    for i := 0 to N
      invariant forall r: nat, c: nat :: r < i && c < N ==> IsProduct(op, N, A[..], B[..], C[..], r, c)
    {
      for j := 0 to N
        invariant forall r: nat, c: nat :: r <= i && c < N && (r < i || c < j) ==> IsProduct(op, N, A[..], B[..], C[..], r, c)
      {
        ghost var before := C[..];
        MulEntry(op, N, C, A, B, i, j);
        forall r: nat, c: nat | r <= i && c < N && (r < i || c <= j) ensures IsProduct(op, N, A[..], B[..], C[..], r, c) {
          if r < i || c < j {
            assert IsProduct(op, N, A[..], B[..], before, r, c);
            FlatInRange(N, r, c);
            if Flat(N, r, c) == Flat(N, i, j) {
              FlatInjective(N, r, c, i, j);
            }
          }
        }
      }
    }
  }

  method MulEntry(op: Arithmetic<int>, N: nat, C: array<int>, A: array<int>, B: array<int>, i: nat, j: nat)
    requires A.Length == B.Length == Size(N) <= C.Length && C != A && C != B && i < N && j < N
    modifies C
    ensures IsProduct(op, N, A[..], B[..], C[..], i, j)
    ensures forall k :: 0 <= k < C.Length && k != Flat(N, i, j) ==> C[k] == old(C[k])
  {
    FlatInRange(N, i, j);
    var at := Flat(N, i, j);
    C[at] := op.zero;
    for k := 0 to N
      invariant C[at] == Dot(op, N, A[..], B[..], i, j, op.zero, k)
      invariant forall n :: 0 <= n < C.Length && n != at ==> C[n] == old(C[n])
    {
      FlatInRange(N, i, k);
      FlatInRange(N, k, j);
      C[at] := op.add(C[at], op.mul(A[Flat(N, i, k)], B[Flat(N, k, j)]));
    }
  }

  function ConstProducts(A: seq<int>, val: int): (c: seq<int>)
    ensures |c| == |A|
  {
    seq(|A|, k requires 0 <= k < |A| => PLAIN.mul(A[k], val))
  }

  /** `matrix_mul_const`. */
  method MulConst(N: nat, C: array<int>, A: array<int>, val: int)
    requires A.Length == Size(N) <= C.Length && C != A
    modifies C
    ensures C[..Size(N)] == ConstProducts(A[..], val)
  {
    for i := 0 to N
      invariant forall k :: 0 <= k < Flat(N, i, 0) && k < C.Length && k < A.Length ==> C[k] == PLAIN.mul(A[k], val)
    {
      for j := 0 to N
        invariant forall k :: 0 <= k < Flat(N, i, j) && k < C.Length && k < A.Length ==> C[k] == PLAIN.mul(A[k], val)
      {
        FlatInRange(N, i, j);
        FlatShift(N, i, j, 1);
        C[Flat(N, i, j)] := PLAIN.mul(A[Flat(N, i, j)], val);
      }
      FlatShift(N, i, 0, N);
    }
  }

  /** Row i of A by the first row of B. */
  function RowSum(N: nat, A: seq<int>, B: seq<int>, i: nat, n: nat): int
    requires |A| == |B| == Size(N) && i < N && n <= N
  {
    if n == 0 then 0
    else
      FlatInRange(N, i, n - 1);
      FlatInRange(N, 0, n - 1);
      PLAIN.add(RowSum(N, A, B, i, n - 1), PLAIN.mul(A[Flat(N, i, n - 1)], B[n - 1]))
  }

  /** `matrix_mul_vect`. */
  method MulVect(N: nat, C: array<int>, A: array<int>, B: array<int>)
    requires A.Length == B.Length == Size(N) <= C.Length && C != A && C != B
    modifies C
    ensures N <= C.Length && forall i :: 0 <= i < N ==> C[i] == RowSum(N, A[..], B[..], i, N)
    ensures forall k :: N <= k < C.Length ==> C[k] == old(C[k])
  {
    RowFits(N);
    for i := 0 to N
      invariant forall r :: 0 <= r < i ==> C[r] == RowSum(N, A[..], B[..], r, N)
      invariant forall k :: N <= k < C.Length ==> C[k] == old(C[k])
    {
      C[i] := 0;
      for j := 0 to N
        invariant C[i] == RowSum(N, A[..], B[..], i, j) && forall k :: N <= k < C.Length ==> C[k] == old(C[k])
        invariant forall r :: 0 <= r < i ==> C[r] == RowSum(N, A[..], B[..], r, N)
      {
        FlatInRange(N, i, j);
        FlatInRange(N, 0, j);
        C[i] := PLAIN.add(C[i], PLAIN.mul(A[Flat(N, i, j)], B[j]));
      }
    }
  }

  lemma RowFits(N: nat)
    ensures N <= Size(N)
  {
    if N > 0 {
      FlatInRange(N, 0, N - 1);
    }
  }

  // ----- what the products are -----

  /** The sum of c[lo..hi]. */
  function Total(c: seq<int>, lo: nat, hi: nat): int
    requires hi <= |c|
  {
    if hi <= lo then 0 else Total(c, lo, hi - 1) + c[hi - 1]
  }

  /** The terms of row i of A by column j of B, and by the vector in the first row of B. */
  function Terms(N: nat, A: seq<int>, B: seq<int>, i: nat, j: nat): (c: seq<int>)
    requires |A| == |B| == Size(N) && i < N && j < N
    ensures |c| == N
  {
    FlatRange(N);
    seq(N, k requires 0 <= k < N => A[Flat(N, i, k)] * B[Flat(N, k, j)])
  }

  function VectTerms(N: nat, A: seq<int>, B: seq<int>, i: nat): (c: seq<int>)
    requires |A| == |B| == Size(N) && i < N
    ensures |c| == N
  {
    FlatRange(N);
    seq(N, k requires 0 <= k < N => A[Flat(N, i, k)] * B[k])
  }

  lemma FlatRange(N: nat)
    ensures forall r: nat, c: nat :: r < N && c < N ==> Flat(N, r, c) < Size(N)
    ensures N <= Size(N)
  {
    RowFits(N);
    forall r: nat, c: nat | r < N && c < N ensures Flat(N, r, c) < Size(N) {
      FlatInRange(N, r, c);
    }
  }

  /** The products of bit fields in row i of A by column j of B. */
  function FieldTerms(N: nat, A: seq<int>, B: seq<int>, i: nat, j: nat): (c: seq<int>)
    requires |A| == |B| == Size(N) && i < N && j < N
    ensures |c| == N
  {
    FlatRange(N);
    seq(N, k requires 0 <= k < N => BIT_FIELDS.mul(A[Flat(N, i, k)], B[Flat(N, k, j)]))
  }

  /** With bit fields it is their sum; BitFieldsAre says what each is. */
  lemma {:induction false} FieldDotIs(N: nat, A: seq<int>, B: seq<int>, i: nat, j: nat, n: nat)
    requires |A| == |B| == Size(N) && i < N && j < N && n <= N
    ensures Dot(BIT_FIELDS, N, A, B, i, j, BIT_FIELDS.zero, n) == Wrap32(Total(FieldTerms(N, A, B, i, j), 0, n))
  {
    if n > 0 {
      FieldDotIs(N, A, B, i, j, n - 1);
      FlatRange(N);
      var t := FieldTerms(N, A, B, i, j);
      WrapAgain(Total(t, 0, n - 1), Dot(BIT_FIELDS, N, A, B, i, j, BIT_FIELDS.zero, n - 1), t[n - 1]);
    }
  }

  /** An entry of the product is the scalar product, wrapped around once at the end; FlatIsProduct says where the entries are. */
  lemma {:induction false} DotIs(N: nat, A: seq<int>, B: seq<int>, i: nat, j: nat, n: nat)
    requires |A| == |B| == Size(N) && i < N && j < N && n <= N
    ensures Dot(PLAIN, N, A, B, i, j, PLAIN.zero, n) == Wrap32(Total(Terms(N, A, B, i, j), 0, n))
  {
    if n > 0 {
      DotIs(N, A, B, i, j, n - 1);
      FlatRange(N);
      var t := Terms(N, A, B, i, j);
      AddsTerm(Total(t, 0, n - 1), Dot(PLAIN, N, A, B, i, j, PLAIN.zero, n - 1), A[Flat(N, i, n - 1)], B[Flat(N, n - 1, j)], t[n - 1]);
    }
  }

  lemma AddsTerm(sum: int, dot: int, a: int, b: int, t: int)
    requires dot == Wrap32(sum) && t == a * b
    ensures PLAIN.add(dot, PLAIN.mul(a, b)) == Wrap32(sum + t)
  {
    WrapAgain(sum, dot, Wrap32(t));
    WrapAgain(t, Wrap32(t), sum);
  }

  lemma {:induction false} RowSumIs(N: nat, A: seq<int>, B: seq<int>, i: nat, n: nat)
    requires |A| == |B| == Size(N) && i < N && n <= N
    ensures RowSum(N, A, B, i, n) == Wrap32(Total(VectTerms(N, A, B, i), 0, n))
  {
    if n > 0 {
      RowSumIs(N, A, B, i, n - 1);
      FlatRange(N);
      var t := VectTerms(N, A, B, i);
      AddsTerm(Total(t, 0, n - 1), RowSum(N, A, B, i, n - 1), A[Flat(N, i, n - 1)], B[n - 1], t[n - 1]);
    }
  }

  // ----- the checksum -----

  /** All products, row by row. */
  function Rows(op: Arithmetic<int>, N: nat, A: seq<int>, B: seq<int>, n: nat): (c: seq<int>)
    requires |A| == |B| == Size(N) && n <= N
    ensures |c| == Flat(N, n, 0)
  {
    if n == 0 then []
    else Rows(op, N, A, B, n - 1) + seq(N, j requires 0 <= j < N => Dot(op, N, A, B, n - 1, j, op.zero, N))
  }

  lemma {:induction false} RowsAre(op: Arithmetic<int>, N: nat, A: seq<int>, B: seq<int>, C: seq<int>, n: nat)
    requires |A| == |B| == Size(N) <= |C| && n <= N
    requires forall i: nat, j: nat :: i < N && j < N ==> IsProduct(op, N, A, B, C, i, j)
    ensures Flat(N, n, 0) <= |C| && C[..Flat(N, n, 0)] == Rows(op, N, A, B, n)
  {
    if n > 0 {
      RowsAre(op, N, A, B, C, n - 1);
      var start := Flat(N, n - 1, 0);
      assert Flat(N, n, 0) == start + N;
      var rows := Rows(op, N, A, B, n);
      forall k | start <= k < start + N ensures k < |C| && C[k] == rows[k] {
        var j := k - start;
        FlatInRange(N, n - 1, j);
        FlatShift(N, n - 1, 0, j);
        assert IsProduct(op, N, A, B, C, n - 1, j);
      }
      FlatShift(N, n - 1, 0, N);
      if N > 0 {
        FlatInRange(N, n - 1, N - 1);
        FlatShift(N, n - 1, 0, N - 1);
      }
    }
  }

  /** The accumulator, the entry before, and the score of `matrix_sum`. */
  datatype Score = Score(tmp: int, prev: int, ret: int)

  function SumUp(c: seq<int>, n: nat, clipval: int): Score
    requires n <= |c|
  {
    if n == 0 then Score(0, 0, 0)
    else
      var s, cur := SumUp(c, n - 1, clipval), c[n - 1];
      var tmp := Wrap32(s.tmp + cur);
      if tmp > clipval then Score(0, cur, Wrap16(s.ret + 10))
      else Score(tmp, cur, Wrap16(s.ret + if cur > s.prev then 1 else 0))
  }

  /** Entry i makes the sum since the last clip larger than the limit. */
  predicate Clips(c: seq<int>, i: nat, clipval: int)
    requires i < |c|
    decreases i, 1
  {
    Wrap32(Total(c, AfterClip(c, i, clipval), i + 1)) > clipval
  }

  /** The place behind the last clip before i. */
  function AfterClip(c: seq<int>, i: nat, clipval: int): (k: nat)
    requires i <= |c|
    ensures k <= i
    decreases i, 0
  {
    if i == 0 then 0 else if Clips(c, i - 1, clipval) then i else AfterClip(c, i - 1, clipval)
  }

  /** How many of the first n entries clip, and how many others are larger than the entry before. */
  function ClipCount(c: seq<int>, n: nat, clipval: int): nat
    requires n <= |c|
  {
    if n == 0 then 0 else ClipCount(c, n - 1, clipval) + if Clips(c, n - 1, clipval) then 1 else 0
  }

  function RiseCount(c: seq<int>, n: nat, clipval: int): nat
    requires n <= |c|
  {
    if n == 0 then 0
    else
      var before := if n == 1 then 0 else c[n - 2];
      RiseCount(c, n - 1, clipval) + if !Clips(c, n - 1, clipval) && c[n - 1] > before then 1 else 0
  }

  lemma {:induction false} SumSince(c: seq<int>, n: nat, clipval: int)
    requires n <= |c|
    ensures SumUp(c, n, clipval).tmp == Wrap32(Total(c, AfterClip(c, n, clipval), n))
    ensures SumUp(c, n, clipval).prev == if n == 0 then 0 else c[n - 1]
  {
    if n > 0 {
      SumSince(c, n - 1, clipval);
      WrapAgain(Total(c, AfterClip(c, n - 1, clipval), n - 1), SumUp(c, n - 1, clipval).tmp, c[n - 1]);
    }
  }

  /** The score: ten for each clip and one for each rise, in 16 bits. */
  lemma {:induction false} SumUpIs(c: seq<int>, n: nat, clipval: int)
    requires n <= |c|
    ensures SumUp(c, n, clipval).ret == Wrap16(10 * ClipCount(c, n, clipval) + RiseCount(c, n, clipval))
  {
    if n > 0 {
      SumUpIs(c, n - 1, clipval);
      ScoresOne(c, n, clipval);
    }
  }

  lemma ScoresOne(c: seq<int>, n: nat, clipval: int)
    requires 0 < n <= |c|
    requires SumUp(c, n - 1, clipval).ret == Wrap16(10 * ClipCount(c, n - 1, clipval) + RiseCount(c, n - 1, clipval))
    ensures SumUp(c, n, clipval).ret == Wrap16(10 * ClipCount(c, n, clipval) + RiseCount(c, n, clipval))
  {
    var s, before := SumUp(c, n - 1, clipval), 10 * ClipCount(c, n - 1, clipval) + RiseCount(c, n - 1, clipval);
    SumSince(c, n - 1, clipval);
    WrapAgain(Total(c, AfterClip(c, n - 1, clipval), n - 1), s.tmp, c[n - 1]);
    ScoreAgain(before, s.ret, if Clips(c, n - 1, clipval) then 10 else if c[n - 1] > s.prev then 1 else 0);
  }

  /** `matrix_sum`. */
  method MatrixSum(N: nat, C: array<int>, clipval: int) returns (ret: int)
    requires Size(N) <= C.Length
    ensures ret == SumUp(C[..Size(N)], Size(N), clipval).ret
  {
    var tmp, prev, cur := 0, 0, 0;
    ret := 0;
    ghost var c := C[..Size(N)];
    for i := 0 to N
      invariant Flat(N, i, 0) <= |c| && SumUp(c, Flat(N, i, 0), clipval) == Score(tmp, prev, ret)
    {
      for j := 0 to N
        invariant Flat(N, i, j) <= |c| && SumUp(c, Flat(N, i, j), clipval) == Score(tmp, prev, ret)
      {
        FlatInRange(N, i, j);
        FlatShift(N, i, j, 1);
        cur := C[Flat(N, i, j)];
        assert cur == c[Flat(N, i, j)];
        tmp := Wrap32(tmp + cur);
        if tmp > clipval {
          ret := Wrap16(ret + 10);
          tmp := 0;
        } else {
          ret := Wrap16(ret + if cur > prev then 1 else 0);
        }
        prev := cur;
      }
      FlatShift(N, i, 0, N);
    }
  }

  /** `matrix_big`: the constant with its four highest bits set. */
  function Big(val: int): int { Wrap16(Or(val % 0x1_0000, 0xf000)) }

  /** A score of the entries c, added to the checksum. */
  function Summed(c: seq<int>, clipval: int, crc: Word): Word {
    Feed(LowBits(SumUp(c, |c|, clipval).ret % 0x1_0000, 16), crc)
  }

  /** The limit is negative, so that every sum that is not clips; its four highest bits are set, the others the constant's. */
  lemma BigBits(val: int, b: nat)
    ensures -0x1000 <= Big(val) < 0
    ensures IsSet(Big(val) % 0x1_0000, b) <==> b < 16 && (b >= 12 || IsSet(val % 0x1_0000, b))
  {
    var v := val % 0x1_0000;
    HighBitsSet(v, v % 0x1000);
    WrapsHigh(Or(v, 0xf000));
    HighBit(v, b);
  }

  lemma WrapsHigh(w: nat)
    requires 0xf000 <= w < 0x1_0000
    ensures -0x1000 <= Wrap16(w) < 0 && Wrap16(w) % 0x1_0000 == w
  {
  }

  lemma HighBit(v: Word, b: nat)
    ensures IsSet(Or(v, 0xf000), b) <==> b < 16 && (b >= 12 || IsSet(v, b))
  {
    assert Pow2(4) == 16 && Pow2(12) == 0x1000 && Pow2(16) == 0x1_0000;
    OrAt(v, 0xf000, b);
    ShiftedAt(15, 12, b);
    if b >= 12 {
      OnesAt(4, b - 12);
    }
    SmallMod(v, 0x1_0000);
    ModAt(v, 16, b);
  }

  lemma HighBitsSet(v: Word, low: nat)
    requires low == v % 0x1000
    ensures Or(v, 0xf000) == low + 15 * 0x1000
  {
    assert Pow2(12) == 0x1000 && Pow2(4) == 16;
    forall i: nat ensures IsSet(Or(v, 0xf000), i) == IsSet(low + 15 * 0x1000, i) {
      HighBit(v, i);
      JoinedAt(low, 15, 12, i);
      ModAt(v, 12, i);
      if i >= 12 {
        OnesAt(4, i - 12);
      }
    }
    SameBits(Or(v, 0xf000), low + 15 * 0x1000);
  }

  method AddSum(N: nat, C: array<int>, clipval: int, crc0: Word, ghost c: seq<int>) returns (crc: Word)
    requires Size(N) <= C.Length && c == C[..Size(N)]
    ensures crc == Summed(c, clipval, crc0)
  {
    var ret := MatrixSum(N, C, clipval);
    crc := Crcu16(ret % 0x1_0000, crc0);
  }

  /** The entries with those of the vector product in front. */
  function VectOver(N: nat, A: seq<int>, B: seq<int>, c: seq<int>): seq<int>
    requires |A| == |B| == Size(N)
  {
    seq(|c|, k requires 0 <= k < |c| => if k < N then RowSum(N, A, B, k, N) else c[k])
  }

  /** The checksum of `matrix_test`, from the matrix A with the constant added, B and the constant. */
  function TestCrc(N: nat, A: seq<int>, B: seq<int>, val: int): Word
    requires |A| == |B| == Size(N)
  {
    var consts := ConstProducts(A, val);
    var crc := Summed(VectOver(N, A, B, consts), Big(val), Summed(consts, Big(val), 0));
    Summed(Rows(BIT_FIELDS, N, A, B, N), Big(val), Summed(Rows(PLAIN, N, A, B, N), Big(val), crc))
  }

  /** The score of the entries c against the limit, as 16 bits. */
  function ScoreOf(c: seq<int>, clipval: int): Word {
    (10 * ClipCount(c, |c|, clipval) + RiseCount(c, |c|, clipval)) % 0x1_0000
  }

  /** The checksum is that of the four scores: by the constant, by the vector, by B, and by B with bit fields. */
  lemma TestCrcIs(N: nat, A: seq<int>, B: seq<int>, val: int, n: nat)
    requires |A| == |B| == Size(N) && n == 16
    ensures var clipval, consts := Big(val), seq(|A|, k requires 0 <= k < |A| => Wrap32(A[k] * val));
            TestCrc(N, A, B, val) == Feed(WordsMessage([ScoreOf(consts, clipval), ScoreOf(VectOver(N, A, B, consts), clipval),
                                                        ScoreOf(Rows(PLAIN, N, A, B, N), clipval),
                                                        ScoreOf(Rows(BIT_FIELDS, N, A, B, N), clipval)], n), 0)
  {
    var clipval, consts := Big(val), ConstProducts(A, val);
    var vects, plain, fields := VectOver(N, A, B, consts), Rows(PLAIN, N, A, B, N), Rows(BIT_FIELDS, N, A, B, N);
    assert consts == seq(|A|, k requires 0 <= k < |A| => Wrap32(A[k] * val));
    var a, b, c, d := ScoreOf(consts, clipval), ScoreOf(vects, clipval), ScoreOf(plain, clipval), ScoreOf(fields, clipval);
    var crc1 := Summed(consts, clipval, 0);
    var crc2 := Summed(vects, clipval, crc1);
    var crc3 := Summed(plain, clipval, crc2);
    SummedIs(consts, clipval, 0, n);
    SummedIs(vects, clipval, crc1, n);
    SummedIs(plain, clipval, crc2, n);
    SummedIs(fields, clipval, crc3, n);
    FeedFour(a, b, c, d, n, 0);
  }

  lemma SummedIs(c: seq<int>, clipval: int, crc: Word, n: nat)
    requires n == 16
    ensures Summed(c, clipval, crc) == Feed(LowBits(ScoreOf(c, clipval), n), crc)
  {
    var s := 10 * ClipCount(c, |c|, clipval) + RiseCount(c, |c|, clipval);
    SumUpIs(c, |c|, clipval);
    WordOfWrap(s);
  }

  lemma WordOfWrap(x: int)
    ensures Wrap16(x) % 0x1_0000 == x % 0x1_0000
  {
  }

  lemma FeedFour(a: nat, b: nat, c: nat, d: nat, n: nat, crc: Word)
    ensures Feed(WordsMessage([a, b, c, d], n), crc)
         == Feed(LowBits(d, n), Feed(LowBits(c, n), Feed(LowBits(b, n), Feed(LowBits(a, n), crc))))
  {
    assert [a, b, c, d] == [a] + [b, c, d] && [b, c, d] == [b] + [c, d] && [c, d] == [c] + [d] && [d] == [d] + [];
    FeedWord(a, [b, c, d], n, crc);
    FeedWord(b, [c, d], n, Feed(LowBits(a, n), crc));
    FeedWord(c, [d], n, Feed(LowBits(b, n), Feed(LowBits(a, n), crc)));
    FeedWord(d, [], n, Feed(LowBits(c, n), Feed(LowBits(b, n), Feed(LowBits(a, n), crc))));
  }

  /** The four products and their scores. */
  method Products(N: nat, C: array<int>, A: array<int>, B: array<int>, val: int, clipval: int) returns (crc: Word)
    requires A.Length == B.Length == Size(N) <= C.Length && C != A && C != B && clipval == Big(val)
    modifies C
    ensures crc == TestCrc(N, A[..], B[..], val)
    ensures forall i: nat, j: nat :: i < N && j < N ==> IsProduct(BIT_FIELDS, N, A[..], B[..], C[..], i, j)
  {
    ghost var consts := ConstProducts(A[..], val);
    crc := 0;
    MulConst(N, C, A, val);
    crc := AddSum(N, C, clipval, crc, consts);
    crc := VectProduct(N, C, A, B, clipval, crc, consts);
    crc := MatrixProduct(PLAIN, N, C, A, B, clipval, crc);
    crc := MatrixProduct(BIT_FIELDS, N, C, A, B, clipval, crc);
  }

  method VectProduct(N: nat, C: array<int>, A: array<int>, B: array<int>, clipval: int, crc0: Word, ghost c: seq<int>)
    returns (crc: Word)
    requires A.Length == B.Length == Size(N) <= C.Length && C != A && C != B && C[..Size(N)] == c
    modifies C
    ensures crc == Summed(VectOver(N, A[..], B[..], c), clipval, crc0)
  {
    MulVect(N, C, A, B);
    assert C[..Size(N)] == VectOver(N, A[..], B[..], c);
    crc := AddSum(N, C, clipval, crc0, VectOver(N, A[..], B[..], c));
  }

  method MatrixProduct(op: Arithmetic<int>, N: nat, C: array<int>, A: array<int>, B: array<int>, clipval: int, crc0: Word)
    returns (crc: Word)
    requires A.Length == B.Length == Size(N) <= C.Length && C != A && C != B
    modifies C
    ensures crc == Summed(Rows(op, N, A[..], B[..], N), clipval, crc0)
    ensures forall i: nat, j: nat :: i < N && j < N ==> IsProduct(op, N, A[..], B[..], C[..], i, j)
  {
    MulMatrix(op, N, C, A, B);
    RowsAre(op, N, A[..], B[..], C[..], N);
    crc := AddSum(N, C, clipval, crc0, Rows(op, N, A[..], B[..], N));
  }

  /**
   * `matrix_test`: A and B come back, whatever the constant, and C holds the last product, that of A with the constant
   * added. The checksum does not depend on what C held.
   */
  method Test(N: nat, C: array<int>, A: array<int>, B: array<int>, val: int) returns (crc: Word)
    requires A.Length == B.Length == Size(N) <= C.Length && A != B && C != A && C != B && IsS16(val)
    requires forall k :: 0 <= k < A.Length ==> IsS16(A[k])
    modifies A, C
    ensures A[..] == old(A[..]) && B[..] == old(B[..])
    ensures forall i: nat, j: nat :: i < N && j < N ==>
              IsProduct(BIT_FIELDS, N, Added(old(A[..]), Size(N), val), B[..], C[..], i, j)
    ensures crc == TestCrc(N, Added(old(A[..]), Size(N), val), old(B[..]), val)
  {
    ghost var a, b := A[..], B[..];
    var clipval := Big(val);
    AddConst(N, A, val);
    crc := Products(N, C, A, B, val, clipval);
    ghost var c := C[..];
    AddConst(N, A, Wrap16(-val));
    AddedAndTaken(a, Size(N), val);
    assert C[..] == c;
  }

  /** `matrix_test`, as often as one likes: the matrices and the checksum are always the same. */
  method Repeated(N: nat, C: array<int>, A: array<int>, B: array<int>, val: int, times: nat) returns (crcs: seq<Word>)
    requires A.Length == B.Length == Size(N) <= C.Length && A != B && C != A && C != B && IsS16(val)
    requires forall k :: 0 <= k < A.Length ==> IsS16(A[k])
    modifies A, C
    ensures A[..] == old(A[..]) && B[..] == old(B[..]) && |crcs| == times
    ensures forall n :: 0 <= n < times ==> crcs[n] == TestCrc(N, Added(old(A[..]), Size(N), val), old(B[..]), val)
  {
    crcs := [];
    ghost var a, b := A[..], B[..];
    for n := 0 to times
      invariant A[..] == a && B[..] == b && |crcs| == n
      invariant forall i :: 0 <= i < n ==> crcs[i] == TestCrc(N, Added(a, Size(N), val), b, val)
    {
      assert forall k :: 0 <= k < A.Length ==> A[k] == a[k];
      var crc := Test(N, C, A, B, val);
      crcs := crcs + [crc];
    }
  }
}
