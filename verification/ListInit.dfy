/** The list that `core_list_init` builds, when its indices are distinct, and what the iterations make of it. */
module ListInit {
  import opened Bits
  import opened Crc
  import opened ListTypes
  import opened ListSort
  import opened ListBench
  import opened Words

  // ----- what the cells hold -----

  /** The data word of the i-th item: a pattern from the seed and the algorithm number, in both bytes. */
  function Data(seed: Word, i: nat): (d: Word)
    ensures d == Regenerate(d)
  {
    var datpat := And(Xor(seed, i % 0x10000), 0xf);
    PatternBound(Xor(seed, i % 0x10000));
    var dat := datpat * 8 + i % 8;
    assert dat < 0x80 && (dat * 0x100 + dat) / 0x100 == dat;
    dat * 0x100 + dat
  }

  lemma PatternBound(x: nat)
    ensures And(x, 0xf) == x % 16
  {
    assert Pow2(4) == 16;
    AndMask(x, 4);
  }

  /** A pattern with three more bits joined to its high byte, cut to 14 bits. */
  function Mixed(pat: Word, c: nat): (idx: S16)
    ensures idx == Or(pat, c * 0x100) % 0x4000
  {
    MixedBound(Or(pat, c * 0x100));
    And(Or(pat, c * 0x100), 0x3fff)
  }

  lemma MixedBound(x: nat)
    ensures And(x, 0x3fff) == x % 0x4000
  {
    assert Pow2(7) == 0x80 && Pow2(14) == 0x4000;
    AndMask(x, 14);
  }

  /** `(ee_u16)(k ^ seed)'. */
  function Mix(seed: Word, k: nat): Word {
    WordXor(k % 0x10000, seed);
    Xor(k % 0x10000, seed)
  }

  /** The index of the k-th cell: k in the first fifth of the list, a mixed one behind it. */
  function InitialIndex(size: nat, seed: Word, k: nat): S16 {
    if k < size / 5 then ToS16(k) else Mixed(Mix(seed, k), (k + 1) % 8)
  }

  /**
   * Each byte of the data word has the algorithm number i % 8 in its three low bits, above it the four low bits of the
   * seed exclusive-ored with those of i, and a zero.
   */
  lemma DataBits(seed: Word, i: nat, b: nat)
    requires b < 8
    ensures IsSet(Data(seed, i), b) == IsSet(Data(seed, i), b + 8)
    ensures IsSet(Data(seed, i), b) <==>
            if b < 3 then IsSet(i, b) else b < 7 && IsSet(seed, b - 3) != IsSet(i, b - 3)
  {
    var x := Xor(seed, i % 0x10000);
    var dat := And(x, 0xf) * 8 + i % 8;
    assert Pow2(3) == 8 && Pow2(4) == 16 && Pow2(8) == 0x100 && Pow2(16) == 0x10000;
    PatternBound(x);
    JoinedAt(dat, dat, 8, b);
    JoinedAt(dat, dat, 8, b + 8);
    JoinedAt(i % 8, x % 16, 3, b);
    ModAt(i, 3, b);
    if b >= 3 {
      ModAt(x, 4, b - 3);
      XorAt(seed, i % 0x10000, b - 3);
      ModAt(i, 16, b - 3);
    }
  }

  /** A mixed index: the bits of k exclusive-ored with the seed, three of them joined with k + 1, none from bit 14 on. */
  lemma IndexBits(size: nat, seed: Word, k: nat, b: nat)
    requires size / 5 <= k
    ensures InitialIndex(size, seed, k) >= 0
    ensures IsSet(InitialIndex(size, seed, k), b) <==>
            b < 14 && (IsSet(k, b) != IsSet(seed, b) || (8 <= b < 11 && IsSet(k + 1, b - 8)))
  {
    var pat, c := Mix(seed, k), (k + 1) % 8;
    assert Pow2(3) == 8 && Pow2(8) == 0x100 && Pow2(7) == 0x80 && Pow2(14) == 0x4000 && Pow2(16) == 0x10000;
    ModAt(Or(pat, c * 0x100), 14, b);
    OrAt(pat, c * 0x100, b);
    ShiftedAt(c, 8, b);
    XorAt(k % 0x10000, seed, b);
    ModAt(k, 16, b);
    if b >= 8 {
      ModAt(k + 1, 3, b - 8);
    }
  }

  /** The payload of the k-th of the size - 1 cells. */
  function InitialValue(size: nat, seed: Word, k: nat): Value
    requires size >= 3 && k <= size - 2
  {
    if k == 0 then Value(0x8080, 0)
    else if k == size - 2 then Value(0xffff, 0x7fff)
    else Value(Data(seed, size - 3 - k), InitialIndex(size, seed, k))
  }

  /** No two cells get the same index. */
  ghost predicate IndicesDistinct(size: nat, seed: Word)
    requires size >= 3
  {
    forall j, k :: 0 <= j < k <= size - 2 ==> InitialValue(size, seed, j).idx != InitialValue(size, seed, k).idx
  }

  // ----- when the indices are distinct -----

  /** With the size 31 and the seed 6 the index 1 is given twice. */
  lemma IndexTwice()
    ensures InitialIndex(31, 6, 1) == 1 && InitialIndex(31, 6, 7) == 1 && !IndicesDistinct(31, 6)
  {
    SeventhPattern(6, 7);
    SeventhMixed(1, 0);
    assert (7 + 1) % 8 == 0;
    assert InitialValue(31, 6, 1).idx == InitialValue(31, 6, 7).idx;
  }

  lemma SeventhPattern(seed: Word, k: nat)
    requires seed == 6 && k == 7
    ensures Mix(seed, k) == 1
  {
    assert Xor(7, 6) == 1;
  }

  lemma SeventhMixed(pat: Word, c: nat)
    requires pat == 1 && c == 0
    ensures Mixed(pat, c) == 1
  {
    assert Or(1, 0) == 1;
  }

  /** The n low bits of x, and b with n zeros behind it. */
  function Low(x: nat, n: nat): nat {
    if n == 0 then 0 else x % 2 + 2 * Low(x / 2, n - 1)
  }

  function Shifted(b: nat, n: nat): nat {
    if n == 0 then b else 2 * Shifted(b, n - 1)
  }

  lemma {:induction false} LowIsMod(x: nat, n: nat)
    ensures Low(x, n) == x % Pow2(n)
  {
    if n > 0 {
      LowIsMod(x / 2, n - 1);
      ModHalves(x, Pow2(n - 1));
    }
  }

  lemma {:induction false} LowOr(a: nat, b: nat, n: nat)
    ensures Low(Or(a, Shifted(b, n)), n) == Low(a, n)
  {
    if n > 0 {
      LowOr(a / 2, b, n - 1);
      AndOrStep(a, Shifted(b, n));
    }
  }

  lemma {:induction false} LowXor(a: nat, b: nat, n: nat)
    ensures Low(Xor(a, b), n) == Xor(Low(a, n), Low(b, n))
  {
    if n == 0 {
      XorZero(0);
    } else {
      LowXor(a / 2, b / 2, n - 1);
      LowStep(a, n);
      LowStep(b, n);
      LowStep(Xor(a, b), n);
      XorStep(a, b);
      XorStep(Low(a, n), Low(b, n));
    }
  }

  lemma LowStep(x: nat, n: nat)
    requires n > 0
    ensures Low(x, n) % 2 == x % 2 && Low(x, n) / 2 == Low(x / 2, n - 1)
  {
  }

  lemma LowByte(x: nat, n: nat)
    requires n == 8
    ensures Low(x, n) == x % 0x100 && Shifted(x, n) == x * 0x100
  {
    assert Pow2(8) == 0x100;
    LowIsMod(x, n);
    ShiftedByte(x, n - 8);
  }

  lemma ShiftedByte(x: nat, n: nat)
    ensures Shifted(x, n + 8) == 0x100 * Shifted(x, n)
  {
    assert Shifted(x, n + 2) == 4 * Shifted(x, n);
    assert Shifted(x, n + 4) == 4 * Shifted(x, n + 2);
    assert Shifted(x, n + 6) == 4 * Shifted(x, n + 4);
    assert Shifted(x, n + 8) == 4 * Shifted(x, n + 6);
  }

  lemma ModMod(x: nat)
    ensures x % 0x4000 % 0x100 == x % 0x100
  {
    assert x == 0x4000 * (x / 0x4000) + x % 0x4000;
  }

  lemma LowOfMixed(pat: Word, c: nat, n: nat)
    requires n == 8
    ensures Mixed(pat, c) % 0x100 == Low(pat, n) && 0 <= Mixed(pat, c) < 0x4000
  {
    LowByte(c, n);
    LowOr(pat, c, n);
    LowByte(Or(pat, c * 0x100), n);
    ModMod(Or(pat, c * 0x100));
  }

  /** The low byte of a mixed index tells the cell, in a list of up to 256 cells. */
  lemma MixedLow(size: nat, seed: Word, k: nat)
    requires size / 5 <= k < 0x100
    ensures 0 <= InitialIndex(size, seed, k) < 0x4000 && InitialIndex(size, seed, k) % 0x100 == Xor(k, seed % 0x100)
  {
    LowOfMixed(Mix(seed, k), (k + 1) % 8, 8);
    LowOfMix(seed, k, 8);
  }

  lemma LowOfMix(seed: Word, k: nat, n: nat)
    requires k < 0x100 && n == 8
    ensures Low(Mix(seed, k), n) == Xor(k, seed % 0x100)
  {
    SmallMod(k, 0x10000);
    LowByte(k, n);
    LowByte(seed, n);
    LowOfXor(Mix(seed, k), k, seed, n, k, seed % 0x100);
  }

  lemma LowOfXor(x: nat, a: nat, b: nat, n: nat, low: nat, low': nat)
    requires x == Xor(a, b) && low == Low(a, n) && low' == Low(b, n)
    ensures Low(x, n) == Xor(low, low')
  {
    LowXor(a, b, n);
  }

  /** The index of a cell of the first fifth is its place, and the tail's is the largest of all. */
  lemma PlainIndex(size: nat, seed: Word, k: nat)
    requires 3 <= size <= 0x102 && k <= size - 2
    ensures (k == 0 || k < size / 5) ==> InitialValue(size, seed, k).idx == k
    ensures k == size - 2 ==> InitialValue(size, seed, k).idx == 0x7fff
    ensures 0 < k < size - 2 ==> InitialValue(size, seed, k).idx == InitialIndex(size, seed, k)
  {
  }

  /** No mixed index falls among those of the first fifth. */
  ghost predicate MixedBehind(size: nat, seed: Word) {
    forall k: nat :: 1 <= k < size - 2 && size / 5 <= k ==>
      InitialIndex(size, seed, k) != 0 && InitialIndex(size, seed, k) >= size / 5
  }

  /** In a list of up to 256 cells the indices are distinct exactly then. */
  lemma DistinctIff(size: nat, seed: Word)
    requires 3 <= size <= 0x102
    ensures IndicesDistinct(size, seed) <==> MixedBehind(size, seed)
  {
    if IndicesDistinct(size, seed) {
      forall k: nat | 1 <= k < size - 2 && size / 5 <= k
        ensures InitialIndex(size, seed, k) != 0 && InitialIndex(size, seed, k) >= size / 5
      {
        DistinctBehind(size, seed, k);
      }
    }
    if MixedBehind(size, seed) {
      forall j, k | 0 <= j < k <= size - 2 ensures InitialValue(size, seed, j).idx != InitialValue(size, seed, k).idx {
        BehindDistinct(size, seed, j, k);
      }
    }
  }

  lemma DistinctBehind(size: nat, seed: Word, k: nat)
    requires 3 <= size <= 0x102 && IndicesDistinct(size, seed) && 1 <= k < size - 2 && size / 5 <= k
    ensures InitialIndex(size, seed, k) != 0 && InitialIndex(size, seed, k) >= size / 5
  {
    MixedLow(size, seed, k);
    PlainIndex(size, seed, k);
    var j: nat := InitialIndex(size, seed, k);
    if j == 0 || j < size / 5 {
      PlainIndex(size, seed, j);
    }
  }

  lemma BehindDistinct(size: nat, seed: Word, j: nat, k: nat)
    requires 3 <= size <= 0x102 && MixedBehind(size, seed) && j < k <= size - 2
    ensures InitialValue(size, seed, j).idx != InitialValue(size, seed, k).idx
  {
    PlainIndex(size, seed, j);
    PlainIndex(size, seed, k);
    if 0 < j && size / 5 <= j {
      MixedLow(size, seed, j);
      if k < size - 2 {
        MixedApart(size, seed, j, k);
      }
    }
  }

  lemma MixedApart(size: nat, seed: Word, j: nat, k: nat)
    requires size / 5 <= j < k < 0x100
    ensures InitialIndex(size, seed, j) != InitialIndex(size, seed, k)
  {
    MixedLow(size, seed, j);
    MixedLow(size, seed, k);
    if Xor(j, seed % 0x100) == Xor(k, seed % 0x100) {
      XorCancel(j, k, seed % 0x100);
    }
  }

  /** The seed of a validation run gives distinct indices in a list of any length up to 256. */
  lemma ValidationSeed(size: nat, seed: Word)
    requires 3 <= size <= 0x102 && seed == 0
    ensures IndicesDistinct(size, seed)
  {
    forall k: nat | 1 <= k < size - 2 && size / 5 <= k
      ensures InitialIndex(size, seed, k) != 0 && InitialIndex(size, seed, k) >= size / 5
    {
      ValidationIndex(size, seed, k);
    }
    DistinctIff(size, seed);
  }

  lemma ValidationIndex(size: nat, seed: Word, k: nat)
    requires size / 5 <= k < 0x100 && seed % 0x100 == 0
    ensures InitialIndex(size, seed, k) >= k
  {
    MixedLow(size, seed, k);
    XorNothing(k, seed % 0x100);
    LowBelow(InitialIndex(size, seed, k));
  }

  lemma XorNothing(a: nat, b: nat)
    requires b == 0
    ensures Xor(a, b) == a
  {
    XorZero(a);
  }

  lemma LowBelow(x: nat)
    ensures x % 0x100 <= x
  {
  }

  // ----- building the list -----

  /** x put in behind position k. */
  function Inserted<T>(s: seq<T>, k: nat, x: T): (t: seq<T>)
    requires k < |s|
    ensures |t| == |s| + 1 && forall i :: 0 <= i < |t| ==> t[i] == if i <= k then s[i] else if i == k + 1 then x else s[i - 1]
  {
    s[..k + 1] + [x] + s[k + 1..]
  }

  lemma InsertedChain(list: Node, s: seq<Node>, k: nat, item: Node)
    requires NoDup(s) && k < |s| && list == s[0] && item !in s
    requires s[k].next == item && item.next == At(s, k + 1)
    requires forall i {:trigger s[i].next} :: 0 <= i < |s| && i != k ==> s[i].next == At(s, i + 1)
    ensures Chain(list, Inserted(s, k, item)) == true
  {
    var t := Inserted(s, k, item);
    forall i, j | 0 <= i < j < |t| ensures t[i] != t[j] {
    }
    forall i | 0 <= i < |t| ensures t[i].next == At(t, i + 1) {
    }
  }

  /** Each cell carries a payload object of its own, with these values. */
  ghost predicate Carries(s: seq<Node>, vals: seq<Value>)
    reads s`info, InfosOf(s)
  {
    && |vals| == |s|
    && (forall k :: 0 <= k < |s| ==> ValueOf(s[k]) == vals[k])
    && (forall j, k :: 0 <= j < k < |s| ==> s[j].info != s[k].info)
  }

  lemma InsertedCarries(s: seq<Node>, vals: seq<Value>, k: nat, item: Node, v: Value)
    requires Carries(s, vals) && k < |s| && ValueOf(item) == v && item.info !in InfosOf(s)
    ensures Carries(Inserted(s, k, item), Inserted(vals, k, v)) == true
  {
    var t := Inserted(s, k, item);
    forall j | 0 <= j < |s| ensures s[j].info != item.info {
      assert s[j] in s;
    }
    forall i, j | 0 <= i < j < |t| ensures t[i].info != t[j].info {
    }
  }

  /** The next header and the next payload of the two blocks. */
  method Allocate(info: Value, ghost s: seq<Node>, ghost vals: seq<Value>) returns (item: Node)
    requires Carries(s, vals) == true
    ensures fresh(item) && fresh(item.info) && ValueOf(item) == info && Carries(s, vals) == true
    ensures item !in s && item.info !in InfosOf(s)
  {
    var data := new Info(info.data, info.idx);
    item := new Node(data);
  }

  /** `core_list_insert_new`: a new cell behind the insertion point, as long as both blocks have room. */
  method InsertNew(insertPoint: Node, info: Value, memblock: nat, datablock: nat, size: nat,
                   ghost list: Node, ghost s: seq<Node>, ghost vals: seq<Value>, ghost k: nat)
    returns (newItem: Node?, memblock': nat, datablock': nat)
    requires Chain(list, s) == true && Carries(s, vals) == true && k < |s| && insertPoint == s[k]
    modifies insertPoint`next
    ensures newItem == null <==> memblock + 1 >= size || datablock + 1 >= size
    ensures newItem == null ==>
              memblock' == memblock && datablock' == datablock && Chain(list, s) == true && Carries(s, vals) == true
    ensures newItem != null ==>
              && memblock' == memblock + 1 && datablock' == datablock + 1 && fresh(newItem) && fresh(newItem.info)
              && Chain(list, Inserted(s, k, newItem)) == true
              && Carries(Inserted(s, k, newItem), Inserted(vals, k, info)) == true
  {
    memblock', datablock' := memblock, datablock;
    if memblock + 1 >= size {
      return null, memblock', datablock';
    }
    if datablock + 1 >= size {
      return null, memblock', datablock';
    }
    newItem := Allocate(info, s, vals);
    memblock', datablock' := memblock + 1, datablock + 1;
    newItem.next := insertPoint.next;
    insertPoint.next := newItem;
    InsertedChain(list, s, k, newItem);
    InsertedCarries(s, vals, k, newItem, info);
  }

  /** The payloads after n items have been put in behind the head, the first one now being the last before the tail. */
  function Filled(seed: Word, n: nat): (vals: seq<Value>)
    ensures |vals| == n + 2
  {
    [Value(0x8080, 0)] + seq(n, j requires 0 <= j < n => Value(Data(seed, n - 1 - j), 0x7fff)) + [Value(0xffff, 0x7fff)]
  }

  lemma FilledNext(seed: Word, n: nat)
    ensures Inserted(Filled(seed, n), 0, Value(Data(seed, n), 0x7fff)) == Filled(seed, n + 1)
  {
  }

  /** The two fake items, head and tail. */
  method HeadAndTail(size: nat) returns (list: Node, memblock: nat, datablock: nat, ghost s: seq<Node>)
    requires size >= 3
    ensures Chain(list, s) == true && |s| == 2 && Carries(s, [Value(0x8080, 0), Value(0xffff, 0x7fff)]) == true
    ensures memblock == datablock == 2 && fresh(list) && fresh(CellsOf(s)) && fresh(InfosOf(s))
  {
    var data := new Info(0x8080, 0);
    list := new Node(data);
    memblock, datablock := 1, 1;
    s := [list];
    var tail;
    tail, memblock, datablock :=
      InsertNew(list, Value(0xffff, 0x7fff), memblock, datablock, size, list, s, [Value(0x8080, 0)], 0);
    assert Inserted([Value(0x8080, 0)], 0, Value(0xffff, 0x7fff)) == [Value(0x8080, 0), Value(0xffff, 0x7fff)];
    s := Inserted(s, 0, tail);
  }

  /** One more item behind the head, if there is room. */
  method InsertItem(list: Node, seed: Word, i: nat, memblock: nat, size: nat, ghost s: seq<Node>, ghost n: nat)
    returns (memblock': nat, ghost t: seq<Node>, ghost n': nat)
    requires Chain(list, s) == true && Carries(s, Filled(seed, n)) == true && memblock == |s| == n + 2
    requires n == i || (n <= i && memblock + 1 >= size)
    modifies list`next
    ensures n' == (if memblock + 1 >= size then n else n + 1) && memblock' == |t| == n' + 2
    ensures Chain(list, t) == true && Carries(t, Filled(seed, n')) == true
    ensures fresh(CellsOf(t) - CellsOf(s)) && fresh(InfosOf(t) - old(InfosOf(s)))
  {
    var item, datablock;
    item, memblock', datablock :=
      InsertNew(list, Value(Data(seed, i), 0x7fff), memblock, memblock, size, list, s, Filled(seed, n), 0);
    if item == null {
      t, n' := s, n;
    } else {
      t, n' := Inserted(s, 0, item), n + 1;
      FilledNext(seed, n);
    }
  }

  /** Head and tail, then as many items as the blocks have room for. */
  method FillList(size: nat, seed: Word) returns (list: Node, ghost s: seq<Node>)
    requires size >= 3
    ensures Chain(list, s) == true && |s| == size - 1 && Carries(s, Filled(seed, size - 3)) == true
    ensures fresh(CellsOf(s)) && fresh(InfosOf(s))
  {
    var memblock, datablock;
    list, memblock, datablock, s := HeadAndTail(size);
    ghost var n := 0;
    for i := 0 to size
      invariant n == (if i <= size - 3 then i else size - 3) && memblock == |s| == n + 2
      invariant Chain(list, s) == true && Carries(s, Filled(seed, n)) == true
      invariant fresh(list) && fresh(CellsOf(s)) && fresh(InfosOf(s))
    {
      memblock, s, n := InsertItem(list, seed, i, memblock, size, s, n);
    }
  }

  // ----- the indices -----

  /** The payloads when the cells before position i have their index. */
  function Indexed(size: nat, seed: Word, i: nat): (vals: seq<Value>)
    requires size >= 3
    ensures |vals| == size - 1
  {
    seq(size - 1, k requires 0 <= k < size - 1 => if k < i then InitialValue(size, seed, k) else Filled(seed, size - 3)[k])
  }

  lemma IndexedNext(size: nat, seed: Word, i: nat)
    requires size >= 3 && 1 <= i < size - 2
    ensures Indexed(size, seed, i)[i := Value(Indexed(size, seed, i)[i].data, InitialIndex(size, seed, i))]
         == Indexed(size, seed, i + 1)
  {
  }

  lemma IndexedEnds(size: nat, seed: Word)
    requires size >= 3
    ensures Indexed(size, seed, 1) == Filled(seed, size - 3)
    ensures Indexed(size, seed, size - 2) == Indexed(size, seed, size - 1)
  {
  }

  method SetIndex(info: Info, idx: S16, ghost s: seq<Node>, ghost vals: seq<Value>, ghost k: nat, ghost infos: set<Info>)
    requires Carries(s, vals) == true && k < |s| && info == s[k].info && info in infos
    modifies infos
    ensures Carries(s, vals[k := Value(vals[k].data, idx)]) == true && InfosOf(s) == old(InfosOf(s))
  {
    info.idx := idx;
    forall j | 0 <= j < |s| ensures ValueOf(s[j]) == vals[k := Value(vals[k].data, idx)][j] {
      assert j != k ==> s[j].info != info;
    }
  }

  /** The index of one cell. */
  method NextIndex(size: nat, seed: Word, i: nat) returns (idx: S16, i': nat)
    ensures idx == InitialIndex(size, seed, i) && i' == i + 1
  {
    if i < size / 5 {
      idx, i' := ToS16(i), i + 1;
    } else {
      var pat := Mix(seed, i);
      i' := i + 1;
      LowThree(i');
      idx := Mixed(pat, And(i', 7));
    }
  }

  lemma LowThree(x: nat)
    ensures And(x, 7) == x % 8
  {
    assert Pow2(3) == 8;
    AndMask(x, 3);
  }

  /** Every cell but head and tail gets its index. */
  method IndexCells(list: Node, size: nat, seed: Word, ghost s: seq<Node>, ghost infos: set<Info>)
    requires size >= 3 && |s| == size - 1 && infos == InfosOf(s)
    requires Chain(list, s) == true && Carries(s, Filled(seed, size - 3)) == true
    modifies infos
    ensures Chain(list, s) == true && Carries(s, Indexed(size, seed, size - 1)) == true && InfosOf(s) == infos
  {
    IndexedEnds(size, seed);
    assert s[0].next == s[1];
    var finder, i := list.next, 1;
    while finder.next != null
      invariant 1 <= i <= size - 2 && finder == s[i] && (finder.next == null <==> i == size - 2)
      invariant Chain(list, s) == true && Carries(s, Indexed(size, seed, i)) == true && InfosOf(s) == infos
      decreases size - i
    {
      finder, i := IndexCell(finder, size, seed, i, list, s, infos);
    }
  }

  method IndexCell(finder0: Node, size: nat, seed: Word, i0: nat, ghost list: Node, ghost s: seq<Node>, ghost infos: set<Info>)
    returns (finder: Node, i: nat)
    requires 1 <= i0 < size - 2 && |s| == size - 1 && finder0 == s[i0] && infos == InfosOf(s)
    requires Chain(list, s) == true && Carries(s, Indexed(size, seed, i0)) == true
    modifies infos
    ensures i == i0 + 1 && finder == s[i] && (finder.next == null <==> i == size - 2)
    ensures Chain(list, s) == true && Carries(s, Indexed(size, seed, i)) == true && InfosOf(s) == infos
  {
    assert s[i0].next == s[i0 + 1] && s[i0 + 1].next == ListSort.At(s, i0 + 2);
    var idx;
    idx, i := NextIndex(size, seed, i0);
    InInfos(s, i0);
    SetIndex(finder0.info, idx, s, Indexed(size, seed, i0), i0, infos);
    IndexedNext(size, seed, i0);
    finder := finder0.next;
  }

  lemma InInfos(s: seq<Node>, k: nat)
    requires k < |s|
    ensures s[k].info in InfosOf(s)
  {
  }

  // ----- the list -----

  /** Data words whose bytes agree are not touched by a sort by index. */
  lemma SettledStays(v: View, w: View)
    requires BytesAgree(v) && Evolves(ByIndex, true, v, w)
    ensures w == v
  {
    forall n | n in v ensures w[n] == v[n] {
      assert ValueEvolves(ByIndex, true, v[n], w[n]);
    }
  }

  lemma InitialBytesAgree(s: seq<Node>, size: nat, seed: Word)
    requires size >= 3 && Carries(s, Indexed(size, seed, size - 1))
    ensures BytesAgree(ViewOf(s)) && Shows(ViewOf(s), s)
    ensures forall k :: 0 <= k < |s| ==> ViewOf(s)[s[k]] == InitialValue(size, seed, k)
  {
    forall k | 0 <= k < |s| ensures s[k] in CellsOf(s) && ViewOf(s)[s[k]] == InitialValue(size, seed, k) {
    }
    forall n | n in ViewOf(s) ensures ViewOf(s)[n].data == Regenerate(ViewOf(s)[n].data) {
      var k :| 0 <= k < |s| && s[k] == n;
      assert ViewOf(s)[s[k]] == InitialValue(size, seed, k);
    }
  }

  /** The sorted list is strictly increasing exactly if no index was given twice. */
  lemma AscendingIff(v: View, size: nat, seed: Word, s: seq<Node>, t: seq<Node>)
    requires size >= 3 && |s| == size - 1 && NoDup(s) && multiset(t) == multiset(s) && SortedFrom(ByIndex, v, s, t)
    requires forall k :: 0 <= k < |s| ==> s[k] in v && v[s[k]] == InitialValue(size, seed, k)
    ensures Ascending(v, t) <==> IndicesDistinct(size, seed)
  {
    PermutedWithin(s, t, v);
    if IndicesDistinct(size, seed) {
      forall i, j | 0 <= i < j < |t| ensures v[t[i]].idx < v[t[j]].idx {
        if Earlier(s, t[i], t[j]) {
          var a, b :| 0 <= a < b < |s| && s[a] == t[i] && s[b] == t[j];
        }
      }
    }
    if Ascending(v, t) {
      forall j, k | 0 <= j < k <= size - 2 ensures InitialValue(size, seed, j).idx != InitialValue(size, seed, k).idx {
        assert s[j] in multiset(t) && s[k] in multiset(t);
        var a :| 0 <= a < |t| && t[a] == s[j];
        var b :| 0 <= b < |t| && t[b] == s[k];
        assert a < b || b < a;
      }
    }
  }

  /** What one run of the benchmark needs to leave the list as it is, and what `Init` makes of it. */
  ghost predicate Stable(v: View, t: seq<Node>) { Ascending(v, t) && BytesAgree(v) }

  lemma InitDone(size: nat, seed: Word, s: seq<Node>, t: seq<Node>, v: View)
    requires size >= 3 && |s| == size - 1 && NoDup(s) == true && Permuted(t, s) == true
    requires BytesAgree(v) == true && SortedFrom(ByIndex, v, s, t) == true
    requires forall k :: 0 <= k < |s| ==> s[k] in v && v[s[k]] == InitialValue(size, seed, k)
    ensures |t| == |s| && (Stable(v, t) <==> IndicesDistinct(size, seed))
  {
    AscendingIff(v, size, seed, s, t);
    assert |multiset(s)| == |multiset(t)|;
  }

  /** A sort by index of payloads whose bytes agree. */
  method SortAgreeing(list0: Node, ghost s: seq<Node>) returns (list: Node, ghost t: seq<Node>)
    requires Chain(list0, s) == true && s != [] && |s| <= 0x8000_0000 && BytesAgree(ViewOf(s)) == true
    modifies CellsOf(s)`next, InfosOf(s)
    ensures Chain(list, t) == true && Permuted(t, s) == true && SortedFrom(ByIndex, ViewOf(s), s, t) == true
    ensures ViewOf(s) == old(ViewOf(s)) && InfosOf(s) == old(InfosOf(s))
  {
    ghost var v := ViewOf(s);
    ghost var compared;
    list, t, compared := MergeSort(list0, ByIndex, null, s);
    SettledStays(v, ViewOf(s));
  }

  /** The sort at the end of `core_list_init`. */
  method SortInitial(list0: Node, size: nat, seed: Word, ghost s: seq<Node>) returns (list: Node, ghost t: seq<Node>)
    requires 3 <= size < UINT / 20 && |s| == size - 1
    requires Chain(list0, s) == true && Carries(s, Indexed(size, seed, size - 1)) == true
    modifies CellsOf(s)`next, InfosOf(s)
    ensures Chain(list, t) == true && Permuted(t, s) == true && |t| == size - 1
    ensures ViewOf(s) == old(ViewOf(s)) && ViewOf(t) == ViewOf(s) && (Stable(ViewOf(t), t) <==> IndicesDistinct(size, seed))
    ensures CellsOf(t) == CellsOf(s) && InfosOf(t) == old(InfosOf(s))
  {
    assert NoDup(s) == true;
    InitialBytesAgree(s, size, seed);
    ghost var v := ViewOf(s);
    list, t := SortAgreeing(list0, s);
    InitDone(size, seed, s, t, v);
    PermutedHeap(s, t);
  }

  /**
   * `core_list_init`: size - 1 new cells in order of their indices, with data words whose bytes agree; the order is
   * strict, which is what `core_bench_list` needs to restore it, exactly if no index is given twice.
   */
  method Init(blksize: nat, seed: Word) returns (list: Node, ghost s: seq<Node>, ghost t: seq<Node>)
    requires 100 <= blksize < UINT
    ensures var size := blksize / 20 - 2;
            && |t| == size - 1 && Chain(list, t) == true && Permuted(t, s) == true && |s| == |t|
            && Within(s, ViewOf(t)) && (forall k :: 0 <= k < |s| ==> ViewOf(t)[s[k]] == InitialValue(size, seed, k))
            && (Stable(ViewOf(t), t) <==> IndicesDistinct(size, seed))
    ensures fresh(CellsOf(t)) && fresh(InfosOf(t))
  {
    var size := blksize / 20 - 2;
    list, s := FillList(size, seed);
    IndexCells(list, size, seed, s, InfosOf(s));
    InitialBytesAgree(s, size, seed);
    list, t := SortInitial(list, size, seed, s);
  }

  // ----- the iterations -----

  /** The list runs through s, with these links, payload objects and values. */
  ghost predicate AsIs(list: Node, s: seq<Node>, v: View, nx: Links, im: map<Node, Info>, infos: set<Info>)
    reads s, infos
  {
    Chain(list, s) && InfosOf(s) == infos && ViewOf(s) == v && LinksOf(s) == nx && InfoMap(s) == im
  }

  lemma StillAsIs(list: Node, s: seq<Node>, v: View, nx: Links, im: map<Node, Info>, infos: set<Info>)
    requires Chain(list, s) == true && ViewOf(s) == v && LinksOf(s) == nx && InfoMap(s) == im
    requires im.Keys == CellsOf(s) && infos == set n | n in s :: im[n]
    ensures AsIs(list, s, v, nx, im, infos) == true
  {
  }

  lemma InfosListed(s: seq<Node>)
    ensures InfoMap(s).Keys == CellsOf(s) && InfosOf(s) == set n | n in s :: InfoMap(s)[n]
  {
  }

  /** One run on a list that every run restores. */
  method StableBench(res: Results, finderIdx: S16, garbage: Word, ghost s: seq<Node>,
                     ghost v: View, ghost nx: Links, ghost im: map<Node, Info>, ghost infos: set<Info>)
    returns (crc: Word)
    requires 3 <= |s| <= 0x8000_0000 && AsIs(res.list, s, v, nx, im, infos) == true && Stable(v, s)
    modifies CellsOf(s), infos, res
    ensures AsIs(res.list, s, v, nx, im, infos) == true
  {
    InfosListed(s);
    crc := BenchListRestores(res, finderIdx, garbage, s);
    StillAsIs(res.list, s, v, nx, im, infos);
  }

  /** One run and its checksum. */
  method StableRun(res: Results, finderIdx: S16, garbage: Word, ghost s: seq<Node>,
                   ghost v: View, ghost nx: Links, ghost im: map<Node, Info>, ghost infos: set<Info>)
    requires 3 <= |s| <= 0x8000_0000 && AsIs(res.list, s, v, nx, im, infos) == true && Stable(v, s) == true
    modifies CellsOf(s), infos, res
    ensures AsIs(res.list, s, v, nx, im, infos) == true
  {
    var crc := StableBench(res, finderIdx, garbage, s, v, nx, im, infos);
    AddCrc(res, crc, s, v, nx, im, infos);
  }

  method AddCrc(res: Results, crc: Word, ghost s: seq<Node>,
                ghost v: View, ghost nx: Links, ghost im: map<Node, Info>, ghost infos: set<Info>)
    requires AsIs(res.list, s, v, nx, im, infos) == true
    modifies res
    ensures AsIs(res.list, s, v, nx, im, infos) == true && res.crc == Feed(LowBits(crc, 16), old(res.crc))
  {
    var sum := Crcu16(crc, res.crc);
    res.crc := sum;
  }

  method SetCrc(res: Results, crc: Word, ghost s: seq<Node>,
                ghost v: View, ghost nx: Links, ghost im: map<Node, Info>, ghost infos: set<Info>)
    requires AsIs(res.list, s, v, nx, im, infos) == true
    modifies res
    ensures AsIs(res.list, s, v, nx, im, infos) == true && res.crc == crc
  {
    res.crc := crc;
  }

  /** `iterate`: two runs of the list benchmark a time, which leave the list as it was. */
  method Iterate(res: Results, iterations: nat, garbage: seq<(Word, Word)>, ghost s: seq<Node>) returns (crclist: Word)
    requires Chain(res.list, s) == true && 3 <= |s| <= 0x8000_0000 && Stable(ViewOf(s), s) && |garbage| == iterations
    modifies CellsOf(s), InfosOf(s), res
    ensures AsIs(res.list, s, old(ViewOf(s)), old(LinksOf(s)), old(InfoMap(s)), old(InfosOf(s))) == true
  {
    ghost var v, nx, im, infos := ViewOf(s), LinksOf(s), InfoMap(s), InfosOf(s);
    SetCrc(res, 0, s, v, nx, im, infos);
    res.crcmatrix, res.crcstate := 0, 0;
    crclist := 0;
    for i := 0 to iterations
      invariant AsIs(res.list, s, v, nx, im, infos) == true
    {
      StableRun(res, 1, garbage[i].0, s, v, nx, im, infos);
      StableRun(res, -1, garbage[i].1, s, v, nx, im, infos);
      if i == 0 {
        crclist := res.crc;
      }
    }
  }

  /**
   * A list as `core_list_init` builds it, without an index given twice, is after any number of iterations still the one
   * chain in order of the indices, and every cell has the payload that it was given.
   */
  method InitAndIterate(blksize: nat, seed: Word, seed3: S16, iterations: nat, garbage: seq<(Word, Word)>)
    returns (res: Results, ghost s: seq<Node>, ghost t: seq<Node>, ghost v: View, ghost nx: Links,
             ghost im: map<Node, Info>, ghost infos: set<Info>)
    requires 120 <= blksize < UINT && |garbage| == iterations && IndicesDistinct(blksize / 20 - 2, seed)
    ensures |t| == |s| == blksize / 20 - 3 && Permuted(t, s) == true && Stable(v, t)
    ensures Within(s, v) && forall k :: 0 <= k < |s| ==> v[s[k]] == InitialValue(blksize / 20 - 2, seed, k)
    ensures AsIs(res.list, t, v, nx, im, infos) == true
  {
    var list;
    list, s, t := Init(blksize, seed);
    res := new Results(list, seed3, 0);
    v, nx, im, infos := ViewOf(t), LinksOf(t), InfoMap(t), InfosOf(t);
    var crclist := Iterate(res, iterations, garbage, t);
  }
}
