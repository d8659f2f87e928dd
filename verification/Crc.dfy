/** The bit-serial CRC of CoreMark: `crcu8` and the wrappers built on it. */
module Crc {
  import opened Bits
  import opened Fold
  import opened Words

  // ----- the register, one bit at a time -----

  /** One shift of the register by the reflected polynomial x^16 + x^15 + x^2 + 1. */
  function T(x: Word): Word {
    WordXor(x / 2, 0xA001);
    if x % 2 == 1 then Xor(x / 2, 0xA001) else x / 2
  }

  /** The register takes in one message bit. */
  function Step(c: Word, b: bool): Word {
    WordXor(c, 1);
    T(Xor(c, if b then 1 else 0))
  }

  /** The register after a whole message, first bit first. */
  function Feed(bits: seq<bool>, c: Word): Word { Run(Step, c, bits) }

  lemma FeedCons(bits: seq<bool>, c: Word)
    requires bits != []
    ensures Feed(bits, c) == Feed(bits[1..], Step(c, bits[0]))
  {
  }

  /** The n lowest bits of a number, least significant first. */
  function LowBits(d: nat, n: nat): (bits: seq<bool>)
    ensures |bits| == n
  {
    if n == 0 then [] else [d % 2 == 1] + LowBits(d / 2, n - 1)
  }

  /** Numbers of n bits one after the other, each with its lowest bit first. */
  function WordsMessage(words: seq<nat>, n: nat): seq<bool> {
    if words == [] then [] else LowBits(words[0], n) + WordsMessage(words[1..], n)
  }

  lemma FeedWord(a: nat, rest: seq<nat>, n: nat, c: Word)
    ensures Feed(WordsMessage([a] + rest, n), c) == Feed(WordsMessage(rest, n), Feed(LowBits(a, n), c))
  {
    assert ([a] + rest)[1..] == rest;
    RunAppend(Step, c, LowBits(a, n), WordsMessage(rest, n));
  }

  /** The bits of a byte string in the order the CRC consumes them. */
  function MessageBits(bytes: seq<Byte>): (bits: seq<bool>)
    ensures |bits| == 8 * |bytes|
  {
    if bytes == [] then [] else LowBits(bytes[0], 8) + MessageBits(bytes[1..])
  }

  lemma WordXor(x: nat, y: nat)
    ensures Pow2(16) == 0x10000 && Pow2(15) == 0x8000
    ensures x < 0x10000 && y < 0x10000 ==> Xor(x, y) < 0x10000
    ensures x < 0x8000 && y < 0x8000 ==> Xor(x, y) < 0x8000 && Xor(x, y + 0x8000) == Xor(x, y) + 0x8000
  {
    assert Pow2(4) == 16 && Pow2(8) == 256 && Pow2(12) == 4096;
    if x < 0x10000 && y < 0x10000 { XorBound(x, y, 16); }
    if x < 0x8000 && y < 0x8000 { XorBound(x, y, 15); XorTop(x, y, 15); }
  }

  // ----- the code -----

  lemma OneBit(x: nat)
    ensures And(x, 1) == x % 2
  {
    assert Pow2(1) == 2;
    AndMask(x, 1);
  }

  lemma FlagBit(data: nat, crc: Word)
    ensures Xor(And(data, 1), And(crc % 0x100, 1)) == if data % 2 == crc % 2 then 0 else 1
  {
    OneBit(data);
    OneBit(crc % 0x100);
    assert (crc % 0x100) % 2 == crc % 2;
    assert Xor(0, 1) == 1 && Xor(1, 0) == 1 && Xor(1, 1) == 0;
  }

  lemma StepByCases(crc: Word, b: bool)
    ensures Step(crc, b) == if (crc % 2 == 1) == b then crc / 2 else Xor(crc / 2, 0xA001)
  {
    XorStep(crc, if b then 1 else 0);
    XorZero(crc / 2);
  }

  lemma Feedback(crc: Word)
    ensures Or(Xor(crc, 0x4002) / 2, 0x8000) == Xor(crc / 2, 0xA001)
    ensures And(crc / 2, 0x7fff) == crc / 2
  {
    WordXor(0, 0);
    CarryIntoTop(crc, 0x4002, 0x2001, 15, 0x8000);
  }

  lemma CarryIntoTop(crc: nat, mask: nat, half: nat, n: nat, top: nat)
    requires mask == 2 * half && half < top && top == Pow2(n) && crc < 2 * top
    ensures Or(Xor(crc, mask) / 2, top) == Xor(crc / 2, half + top)
    ensures And(crc / 2, top - 1) == crc / 2
  {
    var h := crc / 2;
    XorStep(crc, mask);
    assert Xor(crc, mask) / 2 == Xor(h, half);
    XorBound(h, half, n);
    XorTop(h, half, n);
    TopBit(Xor(h, half), n, top);
    TopBit(h, n, top);
  }

  /** One round of `crcu8` is one step of the register. */
  lemma RoundIsStep(data: nat, crc: Word)
    ensures Step(crc, data % 2 == 1) ==
            if Xor(And(data, 1), And(crc % 0x100, 1)) == 1
            then Or(Xor(crc, 0x4002) / 2, 0x8000)
            else And(crc / 2, 0x7fff)
  {
    FlagBit(data, crc);
    StepByCases(crc, data % 2 == 1);
    Feedback(crc);
  }

  /** `crcu8`: eight rounds, each consuming the lowest data bit. */
  method Crcu8(data0: Byte, crc0: Word) returns (crc: Word)
    ensures crc == Feed(LowBits(data0, 8), crc0)
  {
    var data: nat := data0;
    crc := crc0;
    for i := 0 to 8
      invariant Feed(LowBits(data, 8 - i), crc) == Feed(LowBits(data0, 8), crc0)
    {
      RoundIsStep(data, crc);
      RunCons(Step, crc, data % 2 == 1, LowBits(data / 2, 7 - i));
      var x16 := Xor(And(data, 1), And(crc % 0x100, 1));
      data := data / 2;
      var c: nat := crc;
      var carry := 0;
      if x16 == 1 {
        c := Xor(c, 0x4002);
        carry := 1;
      } else {
        carry := 0;
      }
      c := c / 2;
      if carry != 0 {
        c := Or(c, 0x8000);
      } else {
        c := And(c, 0x7fff);
      }
      crc := c;
    }
  }

  /** The bits of two numbers side by side are the bits of one after those of the other. */
  lemma {:induction false} LowBitsJoin(lo: nat, hi: nat, m: nat, n: nat)
    requires lo < Pow2(m)
    ensures LowBits(lo + hi * Pow2(m), m + n) == LowBits(lo, m) + LowBits(hi, n)
  {
    if m > 0 {
      LowBitsJoin(lo / 2, hi, m - 1, n);
      Halve(lo, hi, Pow2(m - 1));
    } else {
      assert LowBits(lo, m) + LowBits(hi, n) == LowBits(hi, n);
    }
  }

  lemma Halve(lo: nat, hi: nat, k: nat)
    ensures hi * (2 * k) == 2 * (hi * k)
    ensures (lo + hi * (2 * k)) / 2 == lo / 2 + hi * k && (lo + hi * (2 * k)) % 2 == lo % 2
  {
    assert hi * (2 * k) == 2 * (hi * k);
  }

  lemma FeedJoin(d: nat, lo: nat, hi: nat, p: nat, m: nat, n: nat, c: Word)
    requires p == Pow2(m) && lo < p && d == lo + hi * p
    ensures Feed(LowBits(d, m + n), c) == Feed(LowBits(hi, n), Feed(LowBits(lo, m), c))
  {
    LowBitsJoin(lo, hi, m, n);
    RunAppend(Step, c, LowBits(lo, m), LowBits(hi, n));
  }

  /** `crcu16`: the low byte, then the high byte; `crc16` is the same on a signed argument. */
  method Crcu16(newval: Word, crc0: Word) returns (crc: Word)
    ensures crc == Feed(LowBits(newval, 16), crc0)
  {
    assert Pow2(8) == 0x100;
    FeedJoin(newval, newval % 0x100, newval / 0x100, 0x100, 8, 8, crc0);
    crc := Crcu8(newval % 0x100, crc0);
    crc := Crcu8(newval / 0x100, crc);
  }

  /** `crcu32`: the low half, then the high half. */
  method Crcu32(newval: nat, crc0: Word) returns (crc: Word)
    requires newval < 0x1_0000_0000
    ensures crc == Feed(LowBits(newval, 32), crc0)
  {
    WordXor(0, 0);
    FeedJoin(newval, newval % 0x10000, newval / 0x10000, 0x10000, 16, 16, crc0);
    crc := Crcu16(newval % 0x10000, crc0);
    crc := Crcu16(newval / 0x10000, crc);
  }

  // ----- the algebra -----

  lemma ShiftInjective(x: Word, y: Word)
    requires T(x) == T(y)
    ensures x == y
  {
    TopBitAfterFeedback(x / 2);
    TopBitAfterFeedback(y / 2);
    if x % 2 == 1 && y % 2 == 1 {
      XorCancel(x / 2, y / 2, 0xA001);
    }
  }

  lemma TopBitAfterFeedback(h: nat)
    requires h < 0x8000
    ensures Xor(h, 0xA001) >= 0x8000
  {
    WordXor(h, 0x2001);
  }

  /** No step forgets the state: equal results from the same bit mean equal registers. */
  lemma StepInjective(x: Word, y: Word, b: bool)
    requires Step(x, b) == Step(y, b)
    ensures x == y
  {
    var k := if b then 1 else 0;
    WordXor(x, k);
    WordXor(y, k);
    ShiftInjective(Xor(x, k), Xor(y, k));
    XorCancel(x, y, k);
  }

  lemma FeedInjective(bits: seq<bool>, x: Word, y: Word)
    requires x != y
    ensures Feed(bits, x) != Feed(bits, y)
  {
    forall u: Word, v: Word, b | Step(u, b) == Step(v, b) ensures u == v {
      StepInjective(u, v, b);
    }
    RunInjective<Word, bool>(Step, x, y, bits);
  }

  lemma XorSwap(a: nat, b: nat, c: nat, d: nat)
    ensures Xor(Xor(a, b), Xor(c, d)) == Xor(Xor(a, c), Xor(b, d))
  {
    XorAssoc(a, b, Xor(c, d));
    XorAssoc(b, c, d);
    XorComm(b, c);
    XorAssoc(c, b, d);
    XorAssoc(a, c, Xor(b, d));
  }

  /** The register is linear: shifting a sum is the sum of the shifts. */
  lemma ShiftLinear(x: Word, y: Word)
    ensures Xor(x, y) < 0x10000
    ensures T(Xor(x, y)) == Xor(T(x), T(y))
  {
    WordXor(x, y);
    XorStep(x, y);
    var k := 0xA001;
    if x % 2 == 1 && y % 2 == 1 {
      XorSwap(x / 2, k, y / 2, k);
      XorZero(k);
      XorZero(Xor(x / 2, y / 2));
    } else if x % 2 == 1 {
      XorSwap(x / 2, k, y / 2, 0);
      XorZero(k);
      XorZero(y / 2);
    } else if y % 2 == 1 {
      XorSwap(x / 2, 0, y / 2, k);
      XorZero(k);
      XorZero(x / 2);
    }
  }

  lemma StepLinear(x: Word, y: Word, a: bool, b: bool)
    ensures Xor(x, y) < 0x10000
    ensures Step(Xor(x, y), a != b) == Xor(Step(x, a), Step(y, b))
  {
    var p, q := if a then 1 else 0, if b then 1 else 0;
    WordXor(x, p);
    WordXor(y, q);
    WordXor(x, y);
    XorSwap(x, p, y, q);
    assert Xor(0, 1) == 1 && Xor(1, 0) == 1 && Xor(1, 1) == 0;
    ShiftLinear(Xor(x, p), Xor(y, q));
  }

  function XorBits(a: seq<bool>, b: seq<bool>): (d: seq<bool>)
    requires |a| == |b|
  {
    seq(|a|, i requires 0 <= i < |a| => a[i] != b[i])
  }

  /** The CRC of the difference of two messages is the difference of their CRCs. */
  lemma {:induction false} FeedLinear(a: seq<bool>, b: seq<bool>, x: Word, y: Word)
    requires |a| == |b|
    ensures Xor(x, y) < 0x10000
    ensures Feed(XorBits(a, b), Xor(x, y)) == Xor(Feed(a, x), Feed(b, y))
  {
    WordXor(x, y);
    if a != [] {
      assert XorBits(a, b)[1..] == XorBits(a[1..], b[1..]) && XorBits(a, b)[0] == (a[0] != b[0]);
      FeedCons(a, x);
      FeedCons(b, y);
      FeedCons(XorBits(a, b), Xor(x, y));
      StepLinear(x, y, a[0], b[0]);
      FeedLinear(a[1..], b[1..], Step(x, a[0]), Step(y, b[0]));
    }
  }

  // ----- error detection -----

  /** A register holding a high bit keeps one, a place lower, after each step. */
  lemma {:induction false} HighBitStays(bits: seq<bool>, c: Word, n: nat)
    requires |bits| <= n && c >= Pow2(n)
    ensures Feed(bits, c) >= Pow2(n - |bits|)
  {
    if bits != [] {
      StepByCases(c, bits[0]);
      HighAfterFeedback(c, n);
      HighBitStays(bits[1..], Step(c, bits[0]), n - 1);
    }
  }

  lemma HighAfterFeedback(c: Word, n: nat)
    requires n > 0 && c >= Pow2(n)
    ensures c / 2 >= Pow2(n - 1) && Xor(c / 2, 0xA001) >= Pow2(n - 1)
  {
    TopBitAfterFeedback(c / 2);
    assert Pow2(n) == 2 * Pow2(n - 1);
    if n <= 16 {
      WordXor(0, 0);
      Pow2Grows(n - 1, 15);
    } else {
      WordXor(0, 0);
      Pow2Grows(16, n);
    }
  }

  /** From the zero register, no non-zero pattern of at most 16 bits leads back to zero. */
  lemma {:induction false} ShortPatternShows(d: seq<bool>)
    requires |d| <= 16 && true in d
    ensures Feed(d, 0) != 0
  {
    StepByCases(0, d[0]);
    assert Xor(0, 0xA001) == 0xA001 by { XorZero(0xA001); }
    WordXor(0, 0);
    if d[0] {
      HighBitStays(d[1..], 0xA001, 15);
    } else {
      ShortPatternShows(d[1..]);
    }
  }

  lemma {:induction false} SilenceKeepsZero(d: seq<bool>)
    requires true !in d
    ensures Feed(d, 0) == 0
  {
    if d != [] {
      assert !d[0];
      StepByCases(0, false);
      SilenceKeepsZero(d[1..]);
    }
  }

  /** Two messages collide exactly when the CRC of their difference, started from zero, is zero. */
  lemma CollisionIsZeroDifference(a: seq<bool>, b: seq<bool>, c: Word)
    requires |a| == |b|
    ensures Feed(a, c) == Feed(b, c) <==> Feed(XorBits(a, b), 0) == 0
  {
    XorZero(c);
    FeedLinear(a, b, c, c);
    XorZero(Feed(b, c));
    if Xor(Feed(a, c), Feed(b, c)) == 0 {
      XorCancel(Feed(a, c), Feed(b, c), Feed(b, c));
    }
  }

  /** Burst detection, on bits: messages that differ only inside 16 consecutive bits never collide. */
  lemma BitBurstDetected(a: seq<bool>, b: seq<bool>, lo: nat, c: Word)
    requires |a| == |b| && a != b
    requires forall i :: 0 <= i < |a| && !(lo <= i < lo + 16) ==> a[i] == b[i]
    ensures Feed(a, c) != Feed(b, c)
  {
    var d := XorBits(a, b);
    var k :| 0 <= k < |a| && a[k] != b[k];
    assert d[k];
    PatternShows(d, lo);
    CollisionIsZeroDifference(a, b, c);
  }

  /** An error pattern whose ones lie within 16 consecutive places leaves the zero register. */
  lemma PatternShows(d: seq<bool>, lo: nat)
    requires true in d
    requires forall i :: 0 <= i < |d| && d[i] ==> lo <= i < lo + 16
    ensures Feed(d, 0) != 0
  {
    var k :| 0 <= k < |d| && d[k];
    var hi := if lo + 16 <= |d| then lo + 16 else |d|;
    var before, window, after := d[..lo], d[lo..hi], d[hi..];
    assert true in window by {
      assert window[k - lo] == d[k];
    }
    assert true !in before by {
      assert forall i :: 0 <= i < lo ==> before[i] == d[i];
    }
    assert true !in after by {
      assert forall i :: 0 <= i < |after| ==> after[i] == d[hi + i];
    }
    PartsShow(before, window, after);
    assert d == before + (window + after);
  }

  lemma PartsShow(before: seq<bool>, window: seq<bool>, after: seq<bool>)
    requires true !in before && |window| <= 16 && true in window && true !in after
    ensures Feed(before + (window + after), 0) != 0
  {
    RunAppend(Step, 0, before, window + after);
    RunAppend(Step, 0, window, after);
    SilenceKeepsZero(before);
    ShortPatternShows(window);
    SilenceKeepsZero(after);
    FeedInjective(after, Feed(window, 0), 0);
  }

  lemma {:induction false} LowBitsInjective(x: nat, y: nat, n: nat)
    requires x < Pow2(n) && y < Pow2(n) && LowBits(x, n) == LowBits(y, n)
    ensures x == y
  {
    if n > 0 {
      assert LowBits(x, n)[0] == LowBits(y, n)[0] && LowBits(x, n)[1..] == LowBits(y, n)[1..];
      LowBitsInjective(x / 2, y / 2, n - 1);
    }
  }

  /** Different messages have different bits. */
  lemma {:induction false} MessageBitsInjective(a: seq<Byte>, b: seq<Byte>)
    requires |a| == |b| && MessageBits(a) == MessageBits(b)
    ensures a == b
  {
    if a != [] {
      assert LowBits(a[0], 8) == MessageBits(a)[..8] && LowBits(b[0], 8) == MessageBits(b)[..8];
      assert MessageBits(a[1..]) == MessageBits(a)[8..] && MessageBits(b[1..]) == MessageBits(b)[8..];
      assert Pow2(8) == 256;
      LowBitsInjective(a[0], b[0], 8);
      MessageBitsInjective(a[1..], b[1..]);
      assert a == [a[0]] + a[1..] && b == [b[0]] + b[1..];
    }
  }

  /** Burst detection, on bytes: any corruption confined to 16 consecutive bits changes the CRC. */
  lemma BurstDetected(a: seq<Byte>, b: seq<Byte>, lo: nat, c: Word)
    requires |a| == |b| && a != b
    requires forall i :: 0 <= i < 8 * |a| && !(lo <= i < lo + 16) ==> MessageBits(a)[i] == MessageBits(b)[i]
    ensures Feed(MessageBits(a), c) != Feed(MessageBits(b), c)
  {
    if MessageBits(a) == MessageBits(b) {
      MessageBitsInjective(a, b);
    }
    BitBurstDetected(MessageBits(a), MessageBits(b), lo, c);
  }

  /** A register fed its own bits empties itself. */
  lemma {:induction false} FeedOwnBits(x: Word, n: nat)
    requires x < Pow2(n)
    ensures Feed(LowBits(x, n), x) == 0
  {
    if n > 0 {
      StepByCases(x, x % 2 == 1);
      RunCons(Step, x, x % 2 == 1, LowBits(x / 2, n - 1));
      FeedOwnBits(x / 2, n - 1);
    }
  }

  /** The 17 bits of the generator polynomial, as an error pattern. */
  function GeneratorPattern(): (d: seq<bool>)
    ensures |d| == 17 && d[0]
  {
    [true] + LowBits(0xA001, 16)
  }

  lemma GeneratorVanishes(x: Word)
    requires x == Step(0, true)
    ensures Feed([true] + LowBits(x, 16), 0) == 0
  {
    WordXor(0, 0);
    RunCons(Step, 0, true, LowBits(x, 16));
    FeedOwnBits(x, 16);
  }

  /** The number whose bits these are. */
  function OfBits(bits: seq<bool>): (x: nat)
    ensures x < Pow2(|bits|)
  {
    if bits == [] then 0 else (if bits[0] then 1 else 0) + 2 * OfBits(bits[1..])
  }

  lemma {:induction false} BitsOf(bits: seq<bool>)
    ensures LowBits(OfBits(bits), |bits|) == bits
  {
    if bits != [] {
      BitsOf(bits[1..]);
      assert OfBits(bits) / 2 == OfBits(bits[1..]);
    }
  }

  /** Bits in groups of eight are those of a byte string. */
  lemma {:induction false} BytesOf(bits: seq<bool>, n: nat) returns (bytes: seq<Byte>)
    requires |bits| == 8 * n
    ensures |bytes| == n && MessageBits(bytes) == bits
  {
    if n == 0 {
      bytes := [];
    } else {
      BitsOf(bits[..8]);
      assert Pow2(8) == 256;
      var rest := BytesOf(bits[8..], n - 1);
      bytes := [OfBits(bits[..8])] + rest;
      assert bytes[1..] == rest && bits == bits[..8] + bits[8..];
    }
  }

  /** A pattern laid at bit lo of n bits. */
  function LaidAt(g: seq<bool>, lo: nat, n: nat): (d: seq<bool>)
    requires lo + |g| <= n
    ensures |d| == n
  {
    seq(n, i => lo <= i < lo + |g| && g[i - lo])
  }

  lemma LaidVanishes(g: seq<bool>, lo: nat, n: nat)
    requires lo + |g| <= n && Feed(g, 0) == 0
    ensures Feed(LaidAt(g, lo, n), 0) == 0
  {
    var d := LaidAt(g, lo, n);
    var before, after := d[..lo], d[lo + |g|..];
    assert d == before + (g + after);
    RunAppend(Step, 0, before, g + after);
    RunAppend(Step, 0, g, after);
    SilenceKeepsZero(before);
    SilenceKeepsZero(after);
  }

  lemma FlipsAre(x: seq<bool>, y: seq<bool>, g: seq<bool>, lo: nat)
    requires lo + |g| <= |x| && y == XorBits(x, LaidAt(g, lo, |x|))
    ensures |y| == |x| && XorBits(x, y) == LaidAt(g, lo, |x|)
    ensures forall i :: 0 <= i < |x| ==> (y[i] != x[i] <==> lo <= i < lo + |g| && g[i - lo])
  {
  }

  /** A pattern that the zero register does not show goes unnoticed anywhere in any message. */
  lemma VanishingMissed(g: seq<bool>, a: seq<Byte>, lo: nat, c: Word) returns (b: seq<Byte>)
    requires lo + |g| <= 8 * |a| && Feed(g, 0) == 0
    ensures |b| == |a| && Feed(MessageBits(a), c) == Feed(MessageBits(b), c)
    ensures forall i :: 0 <= i < 8 * |a| ==> (MessageBits(b)[i] != MessageBits(a)[i] <==> lo <= i < lo + |g| && g[i - lo])
  {
    var d := LaidAt(g, lo, 8 * |a|);
    LaidVanishes(g, lo, 8 * |a|);
    b := BytesOf(XorBits(MessageBits(a), d), |a|);
    FlipsAre(MessageBits(a), MessageBits(b), g, lo);
    CollisionIsZeroDifference(MessageBits(a), MessageBits(b), c);
  }

  /**
   * Sixteen is the limit: in every message, wherever 17 consecutive bits lie in it, some of them can be flipped, namely
   * those that the generator polynomial says, and the checksum stays the same.
   */
  lemma SeventeenBitBurstMissed(a: seq<Byte>, lo: nat, c: Word) returns (b: seq<Byte>)
    requires lo + 17 <= 8 * |a|
    ensures |b| == |a| && b != a && Feed(MessageBits(b), c) == Feed(MessageBits(a), c)
    ensures forall i :: 0 <= i < 8 * |a| ==>
              (MessageBits(b)[i] != MessageBits(a)[i] <==> lo <= i < lo + 17 && GeneratorPattern()[i - lo])
  {
    var g := GeneratorPattern();
    GeneratorIsFirstStep();
    GeneratorVanishes(0xA001);
    b := VanishingMissed(g, a, lo, c);
    assert g[0] && g[lo - lo];
    assert MessageBits(b)[lo] != MessageBits(a)[lo];
  }

  lemma GeneratorIsFirstStep()
    ensures Step(0, true) == 0xA001
  {
    StepByCases(0, true);
    XorZero(0xA001);
  }

  // ----- parity -----

  /** The parity of the ones of a number. */
  predicate Parity(x: nat) {
    if x == 0 then false else (x % 2 == 1) != Parity(x / 2)
  }

  lemma {:induction false} ParityXor(x: nat, y: nat)
    ensures Parity(Xor(x, y)) == (Parity(x) != Parity(y))
    decreases x + y
  {
    if x + y > 0 {
      XorStep(x, y);
      ParityXor(x / 2, y / 2);
    }
  }

  predicate OddOnes(bits: seq<bool>) {
    if bits == [] then false else bits[0] != OddOnes(bits[1..])
  }

  lemma StepParity(c: Word, b: bool)
    ensures Parity(Step(c, b)) == (Parity(c) != b)
  {
    StepByCases(c, b);
    ParityXor(c / 2, 0xA001);
    assert !Parity(5) && !Parity(20) && !Parity(80) && !Parity(320) && !Parity(1280) && !Parity(5120);
    assert Parity(0xA001);
  }

  /** The CRC carries the parity of the message. */
  lemma {:induction false} FeedParity(bits: seq<bool>, c: Word)
    ensures Parity(Feed(bits, c)) == (Parity(c) != OddOnes(bits))
  {
    if bits != [] {
      StepParity(c, bits[0]);
      FeedParity(bits[1..], Step(c, bits[0]));
    }
  }

  /** Any odd number of flipped bits, wherever they are, changes the CRC. */
  lemma OddErrorsDetected(a: seq<Byte>, b: seq<Byte>, c: Word)
    requires |a| == |b| && OddOnes(XorBits(MessageBits(a), MessageBits(b)))
    ensures Feed(MessageBits(a), c) != Feed(MessageBits(b), c)
  {
    FeedParity(XorBits(MessageBits(a), MessageBits(b)), 0);
    CollisionIsZeroDifference(MessageBits(a), MessageBits(b), c);
  }
}
