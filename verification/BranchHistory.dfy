/** What branch predictors remember: the outcomes of past branches, and saturating two-bit counters. */
module BranchHistory {
  import opened Bits

  datatype Branch = Branch(pc: nat, jump: bool)

  /** The history register after one more outcome. */
  function Shifted(history: nat, jump: bool, width: nat): nat {
    And(Or(Bit(jump), history * Pow2(1)), Pow2(width) - 1)
  }

  /** The history register after a trace. */
  function History(trace: seq<Branch>, width: nat): nat {
    if trace == [] then 0
    else Shifted(History(trace[..|trace| - 1], width), trace[|trace| - 1].jump, width)
  }

  /** The last `width` outcomes, the latest one last; before the trace no branch was taken. */
  function Recent(trace: seq<Branch>, width: nat): (s: seq<bool>)
    ensures |s| == width
  {
    seq(width, i requires 0 <= i < width => |trace| >= width - i && trace[|trace| - width + i].jump)
  }

  /** Outcomes as a binary number, the latest one in the lowest place. */
  function Code(s: seq<bool>): nat {
    if s == [] then 0 else 2 * Code(s[..|s| - 1]) + if s[|s| - 1] then 1 else 0
  }

  lemma {:induction false} CodeBound(s: seq<bool>)
    ensures Code(s) < Pow2(|s|)
  {
    if s != [] {
      CodeBound(s[..|s| - 1]);
    }
  }

  lemma {:induction false} CodeInjective(s: seq<bool>, t: seq<bool>)
    requires |s| == |t| && Code(s) == Code(t)
    ensures s == t
  {
    if s != [] {
      CodeInjective(s[..|s| - 1], t[..|t| - 1]);
      assert s == s[..|s| - 1] + [s[|s| - 1]];
      assert t == t[..|t| - 1] + [t[|t| - 1]];
    }
  }

  /** The oldest outcome is the highest bit. */
  lemma {:induction false} CodeCons(a: bool, s: seq<bool>)
    ensures Code([a] + s) == (if a then Pow2(|s|) else 0) + Code(s)
  {
    if s == [] {
      assert [a] + s == [a] && [a][..0] == [];
    } else {
      var t := s[..|s| - 1];
      CodeCons(a, t);
      assert ([a] + s)[..|s|] == [a] + t;
    }
  }

  function Bit(jump: bool): nat { if jump then 1 else 0 }

  lemma ShiftedIs(history: nat, jump: bool, width: nat, bit: nat)
    requires bit == Bit(jump)
    ensures Shifted(history, jump, width) == And(2 * history + bit, Pow2(width) - 1)
  {
    assert Pow2(1) == 2;
    OrShifted(bit, history, 1);
  }

  /** The register holds the last `width` outcomes and nothing else. */
  lemma {:induction false} HistoryEncodes(trace: seq<Branch>, width: nat)
    ensures History(trace, width) == Code(Recent(trace, width)) < Pow2(width)
  {
    CodeBound(Recent(trace, width));
    if trace == [] {
      CodeOfNone(Recent(trace, width));
    } else {
      var before, jump := trace[..|trace| - 1], trace[|trace| - 1].jump;
      HistoryEncodes(before, width);
      ShiftedIs(History(before, width), jump, width, Bit(jump));
      if width == 0 {
        AndZero(2 * History(before, width) + Bit(jump));
      } else {
        DropOldest(Recent(before, width), jump, Recent(trace, width), Bit(jump));
      }
    }
  }

  lemma {:induction false} CodeOfNone(s: seq<bool>)
    requires forall i :: 0 <= i < |s| ==> !s[i]
    ensures Code(s) == 0
  {
    if s != [] {
      CodeOfNone(s[..|s| - 1]);
    }
  }

  lemma DropOldest(s: seq<bool>, jump: bool, t: seq<bool>, bit: nat)
    requires s != [] && t == s[1..] + [jump] && bit == Bit(jump)
    ensures And(2 * Code(s) + bit, Pow2(|s|) - 1) == Code(t)
  {
    CodeCons(s[0], s[1..]);
    CodeBound(s[1..]);
    assert [s[0]] + s[1..] == s;
    assert t[..|t| - 1] == s[1..];
    DropTop(Code(s), |s|, s[0], Code(s[1..]), bit);
  }

  lemma DropTop(c: nat, n: nat, top: bool, low: nat, bit: nat)
    requires n > 0 && low < Pow2(n - 1) && c == (if top then Pow2(n - 1) else 0) + low && bit < 2
    ensures And(2 * c + bit, Pow2(n) - 1) == 2 * low + bit
  {
    AndOnce(2 * c + bit, n, top, 2 * low + bit);
  }

  lemma AndOnce(x: nat, n: nat, top: bool, r: nat)
    requires r < Pow2(n) && x == (if top then Pow2(n) else 0) + r
    ensures And(x, Pow2(n) - 1) == r
  {
    AndMask(x, n);
    DivModUnique(x, Pow2(n), if top then 1 else 0, r);
  }

  /** Bit i of the register is the outcome of i branches ago. */
  lemma {:induction false} HistoryBit(s: seq<bool>, i: nat)
    ensures IsSet(Code(s), i) <==> i < |s| && s[|s| - 1 - i]
  {
    if s == [] {
      ZeroAt(i);
    } else if i > 0 {
      HistoryBit(s[..|s| - 1], i - 1);
    }
  }

  // ----- counters and contexts -----

  /** A two-bit saturating counter. */
  function Bump(count: nat, jump: bool): nat {
    if jump then (if count + 1 < 3 then count + 1 else 3) else if count > 0 then count - 1 else 0
  }

  /** The counter run over outcomes, from 0. */
  function Counter(s: seq<bool>): nat {
    if s == [] then 0 else Bump(Counter(s[..|s| - 1]), s[|s| - 1])
  }

  lemma CounterNext(s: seq<bool>, counts: bool, jump: bool)
    ensures Counter(s + if counts then [jump] else []) == if counts then Bump(Counter(s), jump) else Counter(s)
  {
    assert (s + [jump])[..|s|] == s;
    assert s + [] == s;
  }

  /** n more outcomes of one kind move the counter n steps their way, within 0 and 3. */
  lemma {:induction false} RunMoves(s: seq<bool>, jump: bool, n: nat)
    ensures var c, d := Counter(s), Counter(s + seq(n, i => jump));
            && c <= 3 && (s == [] ==> c == 0)
            && d == if jump then (if c + n <= 3 then c + n else 3) else (if c >= n then c - n else 0)
  {
    var t := s + seq(n, i => jump);
    if n > 0 {
      RunMoves(s, jump, n - 1);
      assert t[..|t| - 1] == s + seq(n - 1, i => jump);
    } else {
      assert t == s;
      if s != [] {
        RunMoves(s[..|s| - 1], s[|s| - 1], 1);
        assert s[..|s| - 1] + seq(1, i => s[|s| - 1]) == s;
      }
    }
  }

  /** What a predictor with unlimited memory tells branches apart by: the address and the last outcomes. */
  datatype Context = Context(pc: nat, recent: seq<bool>)

  function ContextOf(trace: seq<Branch>, pc: nat, width: nat): Context {
    Context(pc / 4, Recent(trace, width))
  }

  /** The table key: the history in the low bits, the address above it. */
  function Key(pc: nat, history: nat, width: nat): nat {
    Or(history, (pc / 4) * Pow2(width))
  }

  /** Different contexts have different keys. */
  lemma KeysTellContexts(t: seq<Branch>, pc: nat, t': seq<Branch>, pc': nat, width: nat)
    ensures Key(pc, History(t, width), width) == Key(pc', History(t', width), width)
            <==> ContextOf(t, pc, width) == ContextOf(t', pc', width)
  {
    var h, h' := History(t, width), History(t', width);
    HistoryEncodes(t, width);
    HistoryEncodes(t', width);
    OrShifted(h, pc / 4, width);
    OrShifted(h', pc' / 4, width);
    if Key(pc, h, width) == Key(pc', h', width) {
      SplitUnique(h, pc / 4, h', pc' / 4, width);
      CodeInjective(Recent(t, width), Recent(t', width));
    }
  }

  lemma Masked(x: nat, width: nat)
    ensures And(x, Pow2(width) - 1) == x % Pow2(width) < Pow2(width)
  {
    AndMask(x, width);
  }

  /** The table index: the address folded onto the history. */
  function Index(pc: nat, history: nat, pcWidth: nat): nat {
    Xor(history, And(pc / 4, Pow2(pcWidth) - 1))
  }

  lemma IndexInRange(trace: seq<Branch>, pc: nat, width: nat, pcWidth: nat)
    requires width <= pcWidth
    ensures Index(pc, History(trace, width), pcWidth) < Pow2(pcWidth)
  {
    HistoryEncodes(trace, width);
    Pow2Grows(width, pcWidth);
    Masked(pc / 4, pcWidth);
    XorBound(History(trace, width), And(pc / 4, Pow2(pcWidth) - 1), pcWidth);
  }

  /** Bit i of the index: bit i + 2 of the address, exclusive-ored with the outcome of i branches ago. */
  lemma IndexBit(trace: seq<Branch>, pc: nat, width: nat, pcWidth: nat, i: nat)
    ensures IsSet(Index(pc, History(trace, width), pcWidth), i)
            <==> (i < pcWidth && IsSet(pc, i + 2)) != (i < width && i < |trace| && trace[|trace| - 1 - i].jump)
  {
    HistoryEncodes(trace, width);
    HistoryBit(Recent(trace, width), i);
    AddressBit(pc, pcWidth, i);
    XorAt(History(trace, width), And(pc / 4, Pow2(pcWidth) - 1), i);
  }

  /** The low bits of a word address. */
  lemma AddressBit(pc: nat, width: nat, i: nat)
    ensures IsSet(And(pc / 4, Pow2(width) - 1), i) <==> i < width && IsSet(pc, i + 2)
  {
    assert pc / 4 == pc / 2 / 2;
    AndAt(pc / 4, Pow2(width) - 1, i);
    OnesAt(width, i);
  }

  /** At one address two lookups share an entry exactly if their recent outcomes agree. */
  lemma SameAddress(pc: nat, t: seq<Branch>, t': seq<Branch>, width: nat, pcWidth: nat)
    ensures Index(pc, History(t, width), pcWidth) == Index(pc, History(t', width), pcWidth)
            <==> Recent(t, width) == Recent(t', width)
  {
    HistoryEncodes(t, width);
    HistoryEncodes(t', width);
    if Index(pc, History(t, width), pcWidth) == Index(pc, History(t', width), pcWidth) {
      XorCancel(History(t, width), History(t', width), And(pc / 4, Pow2(pcWidth) - 1));
      CodeInjective(Recent(t, width), Recent(t', width));
    }
  }

  /** After one history they share it exactly if the addresses agree in the bits that are used. */
  lemma SameHistory(pc: nat, pc': nat, t: seq<Branch>, width: nat, pcWidth: nat)
    ensures Index(pc, History(t, width), pcWidth) == Index(pc', History(t, width), pcWidth)
            <==> SameWordBits(pc, pc', pcWidth)
  {
    var h, a, a' := History(t, width), And(pc / 4, Pow2(pcWidth) - 1), And(pc' / 4, Pow2(pcWidth) - 1);
    XorComm(h, a);
    XorComm(h, a');
    if Xor(h, a) == Xor(h, a') {
      XorCancel(a, a', h);
    }
    SameLowBits(pc, pc', pcWidth);
  }

  /** The low bits of the word addresses agree. */
  ghost predicate SameWordBits(pc: nat, pc': nat, width: nat) {
    forall i: nat :: 2 <= i < width + 2 ==> IsSet(pc, i) == IsSet(pc', i)
  }

  lemma SameLowBits(pc: nat, pc': nat, width: nat)
    ensures And(pc / 4, Pow2(width) - 1) == And(pc' / 4, Pow2(width) - 1) <==> SameWordBits(pc, pc', width)
  {
    var a, a' := And(pc / 4, Pow2(width) - 1), And(pc' / 4, Pow2(width) - 1);
    if a == a' {
      forall i: nat | 2 <= i < width + 2 ensures IsSet(pc, i) == IsSet(pc', i) {
        AddressBit(pc, width, i - 2);
        AddressBit(pc', width, i - 2);
      }
      assert SameWordBits(pc, pc', width);
    }
    if SameWordBits(pc, pc', width) {
      forall i: nat ensures IsSet(a, i) == IsSet(a', i) {
        AddressBit(pc, width, i);
        AddressBit(pc', width, i);
      }
      SameBits(a, a');
    }
  }
}
