/** The linked list of CoreMark's list benchmark: cells, payloads and comparison functions. */
module ListTypes {
  import opened Bits
  import opened Crc
  import opened Words

  /** `ee_s16` seen as a number. */
  type S16 = x: int | -0x8000 <= x < 0x8000

  /** `list_data`: 16 data bits (high byte: backup, low byte: working copy) and the home position. */
  class Info {
    var data16: Word
    var idx: S16

    constructor (data16: Word, idx: S16)
      ensures this.data16 == data16 && this.idx == idx
    {
      this.data16 := data16;
      this.idx := idx;
    }
  }

  /** `list_head`. */
  class Node {
    var next: Node?
    var info: Info

    constructor (info: Info)
      ensures this.info == info && next == null
    {
      this.info := info;
      next := null;
    }
  }

  /** The fields of `core_results` that the list benchmark reads or writes. */
  class Results {
    const list: Node
    const seed3: S16
    var crc: Word
    var crcstate: Word
    var crcmatrix: Word

    constructor (list: Node, seed3: S16, crc: Word)
      ensures this.list == list && this.seed3 == seed3 && this.crc == crc
    {
      this.list := list;
      this.seed3 := seed3;
      this.crc := crc;
      crcstate := 0;
      crcmatrix := 0;
    }
  }

  /** What a comparison may look at. */
  datatype Value = Value(data: Word, idx: S16)

  /** `cmp_idx`, `cmp_complex`, any pure comparison by a key, and any function at all. */
  datatype Comparator = ByIndex | ByData | ByKey(key: Value -> int) | Arbitrary

  // ----- data bits -----

  function HighByte(d: Word): (h: Word)
    ensures h <= 0xff
  {
    d / 0x100
  }

  predicate Cached(d: Word) { (d / 0x80) % 2 == 1 }

  function Low7(d: Word): (r: S16)
    ensures 0 <= r <= 0x7f
  {
    d % 0x80
  }

  /** The working copy refilled from the backup. */
  function Regenerate(d: Word): Word { HighByte(d) * 0x100 + HighByte(d) }

  /** The word with its backup kept, the cached mark set and a new 7-bit value. */
  function CacheValue(d: Word, r: S16): (w: Word)
    requires 0 <= r <= 0x7f
    ensures HighByte(w) == HighByte(d) && Cached(w) && Low7(w) == r
  {
    assert HighByte(d) * 0x100 + 0x80 + r == HighByte(d) * 0x100 + (0x80 + r);
    DivModUnique(HighByte(d) * 0x100 + 0x80 + r, 0x100, HighByte(d), 0x80 + r);
    DivModUnique(HighByte(d) * 0x100 + 0x80 + r, 0x80, HighByte(d) * 2 + 1, r);
    HighByte(d) * 0x100 + 0x80 + r
  }

  /** The parts of a data word by their bits. */
  lemma DataWordBits(d: Word, b: nat)
    ensures Cached(d) <==> IsSet(d, 7)
    ensures IsSet(Low7(d), b) <==> b < 7 && IsSet(d, b)
    ensures IsSet(Regenerate(d), b) <==> if b < 8 then IsSet(d, b + 8) else IsSet(d, b)
  {
    assert Pow2(7) == 0x80 && Pow2(8) == 0x100;
    BitIs(d, 7);
    ModAt(d, 7, b);
    HighByteBits(d, b);
    JoinedAt(HighByte(d), HighByte(d), 8, b);
    if b >= 8 {
      HighByteBits(d, b - 8);
    }
  }

  /** Caching keeps the backup, sets bit 7 and puts the value below it. */
  lemma CacheBits(d: Word, r: S16, b: nat)
    requires 0 <= r <= 0x7f
    ensures IsSet(CacheValue(d, r), b) <==> if b < 7 then IsSet(r, b) else b == 7 || IsSet(d, b)
  {
    var w := CacheValue(d, r);
    DataWordBits(w, b);
    if b < 7 {
      assert Low7(w) == r;
    } else if b >= 8 {
      HighByteBits(d, b - 8);
      HighByteBits(w, b - 8);
    }
  }

  lemma HighByteBits(d: Word, b: nat)
    ensures IsSet(HighByte(d), b) == IsSet(d, b + 8)
  {
    assert Pow2(8) == 0x100;
    JoinedAt(d % 0x100, HighByte(d), 8, b + 8);
    assert d == d % 0x100 + HighByte(d) * 0x100;
  }

  lemma RegenerateSettles(d: Word)
    ensures HighByte(Regenerate(d)) == HighByte(d) && Regenerate(Regenerate(d)) == Regenerate(d)
  {
  }

  // ----- what the comparisons mean -----

  /** The value by which a comparator orders. */
  ghost function Key(cmp: Comparator, v: Value): int {
    match cmp
    case ByIndex => v.idx
    case ByData => Low7(v.data)
    case ByKey(key) => key(v)
    case Arbitrary => 0
  }

  /** Having been compared once leaves this mark; from then on comparisons change nothing. */
  ghost predicate Settled(cmp: Comparator, regenerate: bool, v: Value) {
    match cmp
    case ByIndex => regenerate ==> v.data == Regenerate(v.data)
    case ByData => Cached(v.data)
    case _ => true
  }

  /** How comparing may change a payload. */
  ghost predicate ValueEvolves(cmp: Comparator, regenerate: bool, v: Value, w: Value) {
    cmp.Arbitrary? ||
    (&& w.idx == v.idx
     && HighByte(w.data) == HighByte(v.data)
     && (Settled(cmp, regenerate, v) ==> w == v)
     && (cmp.ByKey? || (cmp.ByIndex? && !regenerate) ==> w == v))
  }

  // ----- the code -----

  /** The results of `core_bench_state` and `core_bench_matrix`: they never touch the list. */
  method OtherBenchmark() returns (r: Word)
  {
    r := *;
  }

  /** `calc_func`: a 7-bit value, computed once and then cached in the low byte; `value` is the result it comes from. */
  method CalcFunc(pdata: Info, res: Results) returns (retval: S16, ghost value: Word)
    modifies pdata`data16, res
    ensures Cached(pdata.data16) && retval == Low7(pdata.data16)
    ensures HighByte(pdata.data16) == HighByte(old(pdata.data16))
    ensures Cached(old(pdata.data16)) ==>
              && pdata.data16 == old(pdata.data16) && res.crc == old(res.crc)
              && res.crcstate == old(res.crcstate) && res.crcmatrix == old(res.crcmatrix)
    ensures !Cached(old(pdata.data16)) ==>
              && var flag := old(pdata.data16) % 8;
              && retval == Low7(value) && (flag >= 2 ==> value == old(pdata.data16))
              && res.crc == Feed(LowBits(value, 16), old(res.crc))
              && res.crcstate == (if flag == 0 && old(res.crcstate) == 0 then value else old(res.crcstate))
              && res.crcmatrix == (if flag == 1 && old(res.crcmatrix) == 0 then value else old(res.crcmatrix))
  {
    var data := pdata.data16;
    if Cached(data) {
      return Low7(data), data;
    }
    var flag := data % 8;
    var result: Word := data;
    if flag == 0 {
      result := OtherBenchmark();
      if res.crcstate == 0 {
        res.crcstate := result;
      }
    } else if flag == 1 {
      result := OtherBenchmark();
      if res.crcmatrix == 0 {
        res.crcmatrix := result;
      }
    }
    res.crc := Crcu16(result, res.crc);
    retval, value := Low7(result), result;
    pdata.data16 := CacheValue(data, retval);
  }

  /** A comparison: the result's sign orders the two payloads. */
  method Compare(cmp: Comparator, a: Info, b: Info, res: Results?) returns (r: int)
    requires cmp.ByData? ==> res != null
    modifies a`data16, a`idx, b`data16, b`idx, res
    ensures !cmp.Arbitrary? ==>
              && (r <= 0 <==> Key(cmp, Value(a.data16, a.idx)) <= Key(cmp, Value(b.data16, b.idx)))
              && Settled(cmp, res == null, Value(a.data16, a.idx))
              && Settled(cmp, res == null, Value(b.data16, b.idx))
    ensures ValueEvolves(cmp, res == null, Value(old(a.data16), old(a.idx)), Value(a.data16, a.idx))
    ensures ValueEvolves(cmp, res == null, Value(old(b.data16), old(b.idx)), Value(b.data16, b.idx))
  {
    match cmp
    case ByIndex =>
      RegenerateSettles(a.data16);
      RegenerateSettles(b.data16);
      if res == null {
        a.data16 := Regenerate(a.data16);
        b.data16 := Regenerate(b.data16);
      }
      r := a.idx - b.idx;
    case ByData =>
      ghost var value;
      var val1, val2;
      val1, value := CalcFunc(a, res);
      val2, value := CalcFunc(b, res);
      r := val1 - val2;
    case ByKey(key) =>
      r := key(Value(a.data16, a.idx)) - key(Value(b.data16, b.idx));
    case Arbitrary =>
      a.data16 := *;
      a.idx := *;
      b.data16 := *;
      b.idx := *;
      r := *;
  }
}
