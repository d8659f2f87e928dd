/** The gshare predictor with an unlimited table, the real one with an XOR-indexed table, and how they relate. */
module Gshare {
  import opened Bits
  import opened BranchHistory

  // ----- the unlimited table -----

  /** What the table must hold for a key: the counter run over the outcomes of the branches that had this key. */
  function CounterOf(trace: seq<Branch>, key: nat, width: nat): nat {
    if trace == [] then 0
    else
      var before, b := trace[..|trace| - 1], trace[|trace| - 1];
      var count := CounterOf(before, key, width);
      if Key(b.pc, History(before, width), width) == key then Bump(count, b.jump) else count
  }

  predicate InfinitePrediction(trace: seq<Branch>, pc: nat, width: nat) {
    CounterOf(trace, Key(pc, History(trace, width), width), width) >= 2
  }

  class InfiniteGshare {
    const width: nat
    var history: nat
    var pht: map<nat, nat>
    ghost var trace: seq<Branch>

    /** The fields are determined by the updates so far. */
    ghost predicate Valid()
      reads this
    {
      && history == History(trace, width)
      && forall key: nat :: Count(key) == CounterOf(trace, key, width)
    }

    function Count(key: nat): nat
      reads this
    {
      if key in pht then pht[key] else 0
    }

    constructor (width: nat)
      ensures Valid() && trace == [] && this.width == width
    {
      this.width := width;
      history := 0;
      pht := map[];
      trace := [];
    }

    method Get(pc: nat) returns (taken: bool)
      requires Valid()
      ensures taken == InfinitePrediction(trace, pc, width)
      ensures taken <==> Counter(Outcomes(trace, ContextOf(trace, pc, width), width)) >= 2
    {
      PredictsContext(trace, pc, width);
      var address := Or(history, (pc / 4) * Pow2(width));
      taken := Count(address) >= 2;
    }

    method Update(pc: nat, jump: bool, hit: bool)
      requires Valid()
      modifies this
      ensures Valid() && trace == old(trace) + [Branch(pc, jump)]
    {
      var address := Or(history, (pc / 4) * Pow2(width));
      ghost var before := trace;
      if jump {
        pht := pht[address := if Count(address) + 1 < 3 then Count(address) + 1 else 3];
      } else {
        pht := pht[address := if Count(address) > 0 then Count(address) - 1 else 0];
      }
      history := And(Or(Bit(jump), history * Pow2(1)), Pow2(width) - 1);
      trace := trace + [Branch(pc, jump)];
      assert trace[..|trace| - 1] == before;
      assert Key(pc, History(before, width), width) == address;
    }
  }

  /** The outcomes of the branches of a context, in order. */
  function Outcomes(trace: seq<Branch>, c: Context, width: nat): seq<bool> {
    if trace == [] then []
    else
      var before, b := trace[..|trace| - 1], trace[|trace| - 1];
      Outcomes(before, c, width) + if ContextOf(before, b.pc, width) == c then [b.jump] else []
  }

  /** The prediction is that of a saturating counter over the outcomes of the context and of no other. */
  lemma PredictsContext(trace: seq<Branch>, pc: nat, width: nat)
    ensures InfinitePrediction(trace, pc, width) <==> Counter(Outcomes(trace, ContextOf(trace, pc, width), width)) >= 2
  {
    CounterFollows(trace, trace, pc, width);
  }

  lemma {:induction false} CounterFollows(trace: seq<Branch>, t: seq<Branch>, pc: nat, width: nat)
    ensures CounterOf(trace, Key(pc, History(t, width), width), width) == Counter(Outcomes(trace, ContextOf(t, pc, width), width))
  {
    if trace != [] {
      var before, b := trace[..|trace| - 1], trace[|trace| - 1];
      CounterFollows(before, t, pc, width);
      KeysTellContexts(before, b.pc, t, pc, width);
      var c := ContextOf(t, pc, width);
      CounterNext(Outcomes(before, c, width), ContextOf(before, b.pc, width) == c, b.jump);
    }
  }

  // ----- mispredictions -----

  /** How many branches of a trace are mispredicted when each is looked up and then recorded. */
  function Mispredictions(trace: seq<Branch>, width: nat): nat {
    if trace == [] then 0
    else
      var before, b := trace[..|trace| - 1], trace[|trace| - 1];
      Mispredictions(before, width) + if InfinitePrediction(before, b.pc, width) != b.jump then 1 else 0
  }

  function ContextAt(trace: seq<Branch>, i: nat, width: nat): Context
    requires i < |trace|
  {
    ContextOf(trace[..i], trace[i].pc, width)
  }

  /** The outcome of a branch is a function of its address and the last outcomes. */
  ghost predicate Deterministic(trace: seq<Branch>, width: nat) {
    forall i, j :: 0 <= i < |trace| && 0 <= j < |trace| && ContextAt(trace, i, width) == ContextAt(trace, j, width) ==>
      trace[i].jump == trace[j].jump
  }

  /** The contexts that occur in a trace, those of taken branches, and those that were taken at least twice. */
  function Contexts(trace: seq<Branch>, width: nat): set<Context> {
    set i | 0 <= i < |trace| :: ContextAt(trace, i, width)
  }

  function TakenOnce(trace: seq<Branch>, width: nat): set<Context> {
    if trace == [] then {}
    else
      var n := |trace| - 1;
      TakenOnce(trace[..n], width) + if trace[n].jump then {ContextOf(trace[..n], trace[n].pc, width)} else {}
  }

  function TakenTwice(trace: seq<Branch>, width: nat): set<Context> {
    if trace == [] then {}
    else
      var n := |trace| - 1;
      var c := ContextOf(trace[..n], trace[n].pc, width);
      TakenTwice(trace[..n], width) + if trace[n].jump && c in TakenOnce(trace[..n], width) then {c} else {}
  }

  lemma DeterministicPrefix(trace: seq<Branch>, width: nat)
    requires trace != [] && Deterministic(trace, width)
    ensures Deterministic(trace[..|trace| - 1], width)
  {
    var before := trace[..|trace| - 1];
    forall i, j | 0 <= i < |before| && 0 <= j < |before| && ContextAt(before, i, width) == ContextAt(before, j, width)
      ensures before[i].jump == before[j].jump
    {
      assert before[..i] == trace[..i] && before[..j] == trace[..j];
      assert ContextAt(trace, i, width) == ContextAt(trace, j, width);
    }
  }

  /** A context taken once is one of the trace, and its branches are all taken. */
  lemma {:induction false} TakenIsSeen(trace: seq<Branch>, c: Context, width: nat) returns (i: nat)
    requires c in TakenOnce(trace, width)
    ensures i < |trace| && ContextAt(trace, i, width) == c && trace[i].jump
  {
    var n := |trace| - 1;
    if trace[n].jump && ContextOf(trace[..n], trace[n].pc, width) == c {
      i := n;
    } else {
      i := TakenIsSeen(trace[..n], c, width);
      assert trace[..n][..i] == trace[..i];
    }
  }

  lemma {:induction false} TwiceIsOnce(trace: seq<Branch>, width: nat)
    ensures TakenTwice(trace, width) <= TakenOnce(trace, width)
  {
    if trace != [] {
      TwiceIsOnce(trace[..|trace| - 1], width);
    }
  }

  lemma SeenAgain(trace: seq<Branch>, i: nat, width: nat)
    requires Deterministic(trace, width) && i < |trace| - 1
    requires ContextAt(trace[..|trace| - 1], i, width) == ContextAt(trace, |trace| - 1, width)
    ensures trace[i].jump == trace[|trace| - 1].jump
  {
    assert trace[..|trace| - 1][..i] == trace[..i];
  }

  lemma NotTakenBefore(trace: seq<Branch>, width: nat)
    requires Deterministic(trace, width) && trace != [] && !trace[|trace| - 1].jump
    ensures ContextAt(trace, |trace| - 1, width) !in TakenOnce(trace[..|trace| - 1], width)
  {
    var before, c := trace[..|trace| - 1], ContextAt(trace, |trace| - 1, width);
    if c in TakenOnce(before, width) {
      var i := TakenIsSeen(before, c, width);
      SeenAgain(trace, i, width);
    }
  }

  /** On a deterministic trace the counter of a context counts its taken branches, up to three. */
  lemma {:induction false} CounterCounts(trace: seq<Branch>, t: seq<Branch>, pc: nat, width: nat)
    requires Deterministic(trace, width)
    ensures var c, count := ContextOf(t, pc, width), CounterOf(trace, Key(pc, History(t, width), width), width);
            && (count >= 1 <==> c in TakenOnce(trace, width))
            && (count >= 2 <==> c in TakenTwice(trace, width))
  {
    if trace != [] {
      var n := |trace| - 1;
      var before, b := trace[..n], trace[n];
      DeterministicPrefix(trace, width);
      CounterCounts(before, t, pc, width);
      KeysTellContexts(before, b.pc, t, pc, width);
      TwiceIsOnce(before, width);
      if !b.jump {
        NotTakenBefore(trace, width);
      }
    }
  }

  /** A branch is mispredicted the first and the second time its context is taken, and at no other time. */
  lemma {:induction false} MispredictionsCounted(trace: seq<Branch>, width: nat)
    requires Deterministic(trace, width)
    ensures Mispredictions(trace, width) == |TakenOnce(trace, width)| + |TakenTwice(trace, width)|
  {
    if trace != [] {
      var n := |trace| - 1;
      var before, b := trace[..n], trace[n];
      DeterministicPrefix(trace, width);
      MispredictionsCounted(before, width);
      CounterCounts(before, before, b.pc, width);
      TwiceIsOnce(before, width);
      SetsNext(trace, ContextOf(before, b.pc, width), width);
      if !b.jump {
        NotTakenBefore(trace, width);
      }
    }
  }

  lemma SetsNext(trace: seq<Branch>, c: Context, width: nat)
    requires trace != [] && c == ContextAt(trace, |trace| - 1, width)
    ensures var before, jump := trace[..|trace| - 1], trace[|trace| - 1].jump;
            && |TakenOnce(trace, width)| == |TakenOnce(before, width)| + (if jump && c !in TakenOnce(before, width) then 1 else 0)
            && |TakenTwice(trace, width)| == |TakenTwice(before, width)|
               + (if jump && c in TakenOnce(before, width) && c !in TakenTwice(before, width) then 1 else 0)
  {
    var before := trace[..|trace| - 1];
    assert c in TakenOnce(before, width) ==> TakenOnce(before, width) + {c} == TakenOnce(before, width);
    assert c in TakenTwice(before, width) ==> TakenTwice(before, width) + {c} == TakenTwice(before, width);
  }

  /** At most two mispredictions for each context, however long the trace. */
  lemma TwoPerContext(trace: seq<Branch>, width: nat)
    requires Deterministic(trace, width)
    ensures Mispredictions(trace, width) <= 2 * |Contexts(trace, width)|
  {
    MispredictionsCounted(trace, width);
    TwiceIsOnce(trace, width);
    forall c | c in TakenOnce(trace, width) ensures c in Contexts(trace, width) {
      var i := TakenIsSeen(trace, c, width);
    }
    NotLarger(TakenOnce(trace, width), Contexts(trace, width));
    NotLarger(TakenTwice(trace, width), TakenOnce(trace, width));
  }

  lemma NotLarger<T>(a: set<T>, b: set<T>)
    requires a <= b
    ensures |a| <= |b|
  {
    assert b == a + (b - a);
  }

  // ----- the real table -----

  /** What a table entry must hold. */
  function SlotOf(trace: seq<Branch>, index: nat, width: nat, pcWidth: nat): nat {
    if trace == [] then 0
    else
      var before, b := trace[..|trace| - 1], trace[|trace| - 1];
      var count := SlotOf(before, index, width, pcWidth);
      if Index(b.pc, History(before, width), pcWidth) == index then Bump(count, b.jump) else count
  }

  predicate Prediction(trace: seq<Branch>, pc: nat, width: nat, pcWidth: nat) {
    SlotOf(trace, Index(pc, History(trace, width), pcWidth), width, pcWidth) >= 2
  }

  ghost predicate TableHolds(trace: seq<Branch>, pht: seq<nat>, width: nat, pcWidth: nat) {
    |pht| == Pow2(pcWidth) && forall i :: 0 <= i < |pht| ==> pht[i] == SlotOf(trace, i, width, pcWidth)
  }

  lemma TableHoldsNext(trace: seq<Branch>, b: Branch, pht: seq<nat>, pht': seq<nat>, address: nat, width: nat, pcWidth: nat)
    requires TableHolds(trace, pht, width, pcWidth) && address == Index(b.pc, History(trace, width), pcWidth) < |pht|
    requires pht' == pht[address := Bump(pht[address], b.jump)]
    ensures TableHolds(trace + [b], pht', width, pcWidth)
  {
    assert (trace + [b])[..|trace|] == trace;
  }

  class TableGshare {
    const width: nat
    const pcWidth: nat
    const pht: array<nat>
    var history: nat
    ghost var trace: seq<Branch>

    ghost predicate Valid()
      reads this, pht
    {
      && width <= pcWidth && history == History(trace, width) && TableHolds(trace, pht[..], width, pcWidth)
    }

    constructor (width: nat, pcWidth: nat)
      requires width <= pcWidth
      ensures Valid() && fresh(pht) && trace == [] && this.width == width && this.pcWidth == pcWidth
    {
      this.width, this.pcWidth := width, pcWidth;
      pht := new nat[Pow2(pcWidth)](_ => 0);
      history := 0;
      trace := [];
    }

    method Get(pc: nat) returns (taken: bool)
      requires Valid()
      ensures taken == Prediction(trace, pc, width, pcWidth)
      ensures taken <==> Counter(SharedOutcomes(trace, trace, pc, width, pcWidth)) >= 2
    {
      PredictsEntry(trace, pc, width, pcWidth);
      IndexInRange(trace, pc, width, pcWidth);
      var address := Xor(history, And(pc / 4, Pow2(pcWidth) - 1));
      taken := pht[address] >= 2;
    }

    method Update(pc: nat, jump: bool, hit: bool)
      requires Valid()
      modifies this, pht
      ensures Valid() && trace == old(trace) + [Branch(pc, jump)]
    {
      IndexInRange(trace, pc, width, pcWidth);
      var address := Xor(history, And(pc / 4, Pow2(pcWidth) - 1));
      ghost var before, table := trace, pht[..];
      if jump {
        pht[address] := if pht[address] + 1 < 3 then pht[address] + 1 else 3;
      } else {
        pht[address] := if pht[address] > 0 then pht[address] - 1 else 0;
      }
      history := And(Or(Bit(jump), history * Pow2(1)), Pow2(width) - 1);
      trace := trace + [Branch(pc, jump)];
      assert trace[..|before|] == before;
      TableHoldsNext(before, Branch(pc, jump), table, pht[..], address, width, pcWidth);
    }
  }

  /** The outcomes of the branches whose index differs from that of a lookup in no bit. */
  ghost function SharedOutcomes(trace: seq<Branch>, t: seq<Branch>, pc: nat, width: nat, pcWidth: nat): seq<bool> {
    if trace == [] then []
    else
      var before, b := trace[..|trace| - 1], trace[|trace| - 1];
      SharedOutcomes(before, t, pc, width, pcWidth) + if Shares(before, b.pc, t, pc, width, pcWidth) then [b.jump] else []
  }

  /** In every place the address bits and the past outcomes of two lookups differ both or not at all. */
  ghost predicate Shares(t: seq<Branch>, pc: nat, t': seq<Branch>, pc': nat, width: nat, pcWidth: nat) {
    forall i: nat :: DifferAlike(t, pc, t', pc', width, pcWidth, i)
  }

  predicate DifferAlike(t: seq<Branch>, pc: nat, t': seq<Branch>, pc': nat, width: nat, pcWidth: nat, i: nat) {
    (i < pcWidth && IsSet(pc, i + 2) != IsSet(pc', i + 2))
    == (i < width && Recent(t, width)[width - 1 - i] != Recent(t', width)[width - 1 - i])
  }

  lemma SharesIndex(t: seq<Branch>, pc: nat, t': seq<Branch>, pc': nat, width: nat, pcWidth: nat)
    ensures Shares(t, pc, t', pc', width, pcWidth)
            <==> Index(pc, History(t, width), pcWidth) == Index(pc', History(t', width), pcWidth)
  {
    var a, a' := Index(pc, History(t, width), pcWidth), Index(pc', History(t', width), pcWidth);
    if a == a' {
      forall i: nat ensures DifferAlike(t, pc, t', pc', width, pcWidth, i) {
        IndexBit(t, pc, width, pcWidth, i);
        IndexBit(t', pc', width, pcWidth, i);
      }
    }
    if Shares(t, pc, t', pc', width, pcWidth) {
      forall i: nat ensures IsSet(a, i) == IsSet(a', i) {
        assert DifferAlike(t, pc, t', pc', width, pcWidth, i);
        IndexBit(t, pc, width, pcWidth, i);
        IndexBit(t', pc', width, pcWidth, i);
      }
      SameBits(a, a');
    }
  }

  /** The prediction is that of a saturating counter over the outcomes of the branches that share the entry. */
  lemma PredictsEntry(trace: seq<Branch>, pc: nat, width: nat, pcWidth: nat)
    ensures Prediction(trace, pc, width, pcWidth) <==> Counter(SharedOutcomes(trace, trace, pc, width, pcWidth)) >= 2
  {
    SlotFollows(trace, trace, pc, width, pcWidth);
  }

  lemma {:induction false} SlotFollows(trace: seq<Branch>, t: seq<Branch>, pc: nat, width: nat, pcWidth: nat)
    ensures SlotOf(trace, Index(pc, History(t, width), pcWidth), width, pcWidth)
         == Counter(SharedOutcomes(trace, t, pc, width, pcWidth))
  {
    if trace != [] {
      var before, b := trace[..|trace| - 1], trace[|trace| - 1];
      SlotFollows(before, t, pc, width, pcWidth);
      SharesIndex(before, b.pc, t, pc, width, pcWidth);
      CounterNext(SharedOutcomes(before, t, pc, width, pcWidth), Shares(before, b.pc, t, pc, width, pcWidth), b.jump);
    }
  }

  // ----- simulation -----

  function IndexAt(trace: seq<Branch>, i: nat, width: nat, pcWidth: nat): nat
    requires i < |trace|
  {
    Index(trace[i].pc, History(trace[..i], width), pcWidth)
  }

  /** No two contexts of the trace share a table entry. */
  ghost predicate NoAliasing(trace: seq<Branch>, width: nat, pcWidth: nat) {
    forall i, j :: 0 <= i < |trace| && 0 <= j < |trace|
                   && IndexAt(trace, i, width, pcWidth) == IndexAt(trace, j, width, pcWidth) ==>
      ContextAt(trace, i, width) == ContextAt(trace, j, width)
  }

  /** While i is looked up, its table entry has followed its unlimited counter. */
  lemma {:induction false} SameCounter(trace: seq<Branch>, i: nat, n: nat, width: nat, pcWidth: nat)
    requires NoAliasing(trace, width, pcWidth) && n <= i < |trace|
    ensures SlotOf(trace[..n], IndexAt(trace, i, width, pcWidth), width, pcWidth)
         == CounterOf(trace[..n], Key(trace[i].pc, History(trace[..i], width), width), width)
  {
    if n > 0 {
      SameCounter(trace, i, n - 1, width, pcWidth);
      assert trace[..n][..n - 1] == trace[..n - 1];
      KeysTellContexts(trace[..n - 1], trace[n - 1].pc, trace[..i], trace[i].pc, width);
      SameContextSameIndex(trace, n - 1, i, width, pcWidth);
    }
  }

  lemma SameContextSameIndex(trace: seq<Branch>, i: nat, j: nat, width: nat, pcWidth: nat)
    requires NoAliasing(trace, width, pcWidth) && i < |trace| && j < |trace|
    ensures IndexAt(trace, i, width, pcWidth) == IndexAt(trace, j, width, pcWidth)
            <==> ContextAt(trace, i, width) == ContextAt(trace, j, width)
  {
    HistoryEncodes(trace[..i], width);
    HistoryEncodes(trace[..j], width);
  }

  /** Without aliasing the real predictor and the unlimited one agree at every step. */
  lemma Simulates(trace: seq<Branch>, i: nat, width: nat, pcWidth: nat)
    requires NoAliasing(trace, width, pcWidth) && i < |trace|
    ensures Prediction(trace[..i], trace[i].pc, width, pcWidth) == InfinitePrediction(trace[..i], trace[i].pc, width)
  {
    SameCounter(trace, i, i, width, pcWidth);
  }

  lemma WithoutHistory(t: seq<Branch>, pc: nat)
    ensures Index(pc, History(t, 0), 0) == 0 && Key(pc, History(t, 0), 0) == pc / 4
  {
    HistoryEncodes(t, 0);
    AndZero(pc / 4);
    XorZero(0);
    OrShifted(0, pc / 4, 0);
  }

  lemma OneMore(t: seq<Branch>, b: Branch, key: nat)
    ensures SlotOf(t + [b], 0, 0, 0) == Bump(SlotOf(t, 0, 0, 0), b.jump)
    ensures CounterOf(t + [b], key, 0) == if b.pc / 4 == key then Bump(CounterOf(t, key, 0), b.jump) else CounterOf(t, key, 0)
  {
    assert (t + [b])[..|t|] == t;
    WithoutHistory(t, b.pc);
  }

  /** With aliasing they can differ: a table of one entry mistakes a branch for the one that was taken twice. */
  lemma AliasingMisleads(b: Branch, pc: nat, trace: seq<Branch>)
    requires trace == [b] + [b] && b.jump && b.pc / 4 != pc / 4
    ensures Prediction(trace, pc, 0, 0) && !InfinitePrediction(trace, pc, 0)
  {
    var none: seq<Branch> := [];
    assert none + [b] == [b];
    OneMore(none, b, pc / 4);
    OneMore([b], b, pc / 4);
    WithoutHistory(trace, pc);
  }
}
