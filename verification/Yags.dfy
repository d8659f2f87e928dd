/** The YAGS predictor: a choice table and two tagged caches of exceptions to it. */
module Yags {
  import opened Bits
  import opened BranchHistory

  /** One update: a branch, and whether it had been predicted rightly. */
  datatype Event = Event(branch: Branch, hit: bool)

  datatype Entry = Entry(tag: nat, valid: bool, count: nat)

  const EMPTY := Entry(0, false, 0)

  /** The widths of the history, of a table index, of a choice index and of a tag. */
  datatype Shape = Shape(width: nat, pcWidth: nat, choiceWidth: nat, tagWidth: nat)
  {
    function Slot(pc: nat, history: nat): nat { Index(pc, history, pcWidth) }

    function ChoiceSlot(pc: nat): nat { And(pc / 4, Pow2(choiceWidth) - 1) }

    function Tag(pc: nat): nat { And(pc / 4, Pow2(tagWidth) - 1) }
  }

  function Branches(trace: seq<Event>): (s: seq<Branch>)
    ensures |s| == |trace|
  {
    seq(|trace|, i requires 0 <= i < |trace| => trace[i].branch)
  }

  // ----- what the tables must hold after a trace of updates -----

  /** The choice counter is not moved when it was wrong but the prediction was right. */
  function ChoiceAfter(sh: Shape, u: Event, slot: nat, count: nat): nat {
    if sh.ChoiceSlot(u.branch.pc) != slot || ((count >= 2) != u.branch.jump && u.hit) then count else Bump(count, u.branch.jump)
  }

  /** The choice counter of a choice slot. */
  function Choice(sh: Shape, trace: seq<Event>, slot: nat): nat {
    if trace == [] then 0
    else
      var u := trace[|trace| - 1];
      var count := Choice(sh, trace[..|trace| - 1], slot);
      ChoiceAfter(sh, u, slot, count)
  }

  predicate ChoiceFor(sh: Shape, trace: seq<Event>, pc: nat) {
    Choice(sh, trace, sh.ChoiceSlot(pc)) >= 2
  }

  function SlotFor(sh: Shape, trace: seq<Event>, pc: nat): nat {
    sh.Slot(pc, History(Branches(trace), sh.width))
  }

  predicate Matches(e: Entry, tag: nat) { e.valid && e.tag == tag }

  /** The cache that is used while the choice is `side`: its entries are taken over by outcomes other than `side`. */
  function Cached(sh: Shape, side: bool, trace: seq<Event>, slot: nat): Entry {
    if trace == [] then EMPTY
    else
      var before, u := trace[..|trace| - 1], trace[|trace| - 1];
      var e, tag := Cached(sh, side, before, slot), sh.Tag(u.branch.pc);
      if !Consulted(sh, side, trace, |trace| - 1, slot) then e
      else Revised(e, side, tag, u.branch.jump)
  }

  /** An entry of this tag follows the outcomes; another gives way to the first outcome that the choice does not foresee. */
  function Revised(e: Entry, side: bool, tag: nat, jump: bool): Entry {
    if Matches(e, tag) then Entry(tag, true, Bump(e.count, jump))
    else if jump != side then Entry(tag, true, if side then 0 else 3)
    else e
  }

  /** Update i of the trace looked at this slot while the choice was `side`. */
  predicate Consulted(sh: Shape, side: bool, trace: seq<Event>, i: nat, slot: nat)
    requires i < |trace|
  {
    ChoiceFor(sh, trace[..i], trace[i].branch.pc) == side && SlotFor(sh, trace[..i], trace[i].branch.pc) == slot
  }

  /** What `get` answers after a trace. */
  predicate Prediction(sh: Shape, trace: seq<Event>, pc: nat) {
    var side := ChoiceFor(sh, trace, pc);
    var e := Cached(sh, side, trace, SlotFor(sh, trace, pc));
    if Matches(e, sh.Tag(pc)) then e.count >= 2 else side
  }

  lemma SlotsInRange(sh: Shape, trace: seq<Event>, pc: nat)
    requires sh.width <= sh.pcWidth
    ensures SlotFor(sh, trace, pc) < Pow2(sh.pcWidth) && sh.ChoiceSlot(pc) < Pow2(sh.choiceWidth)
  {
    IndexInRange(Branches(trace), pc, sh.width, sh.pcWidth);
    Masked(pc / 4, sh.choiceWidth);
  }

  /** The three addresses bit by bit: those of the branch, and in the slot also the outcomes of the last branches. */
  lemma AddressBits(sh: Shape, trace: seq<Event>, pc: nat, i: nat)
    ensures IsSet(SlotFor(sh, trace, pc), i)
            <==> (i < sh.pcWidth && IsSet(pc, i + 2)) != (i < sh.width && i < |trace| && trace[|trace| - 1 - i].branch.jump)
    ensures IsSet(sh.ChoiceSlot(pc), i) <==> i < sh.choiceWidth && IsSet(pc, i + 2)
    ensures IsSet(sh.Tag(pc), i) <==> i < sh.tagWidth && IsSet(pc, i + 2)
  {
    IndexBit(Branches(trace), pc, sh.width, sh.pcWidth, i);
    AddressBit(pc, sh.choiceWidth, i);
    AddressBit(pc, sh.tagWidth, i);
  }

  // ----- one more update -----

  lemma HistoryNext(sh: Shape, trace: seq<Event>, u: Event)
    ensures History(Branches(trace + [u]), sh.width) == Shifted(History(Branches(trace), sh.width), u.branch.jump, sh.width)
  {
    assert Branches(trace + [u])[..|trace|] == Branches(trace);
  }

  lemma ChoiceNext(sh: Shape, trace: seq<Event>, u: Event, slot: nat)
    ensures Choice(sh, trace + [u], slot) == ChoiceAfter(sh, u, slot, Choice(sh, trace, slot))
  {
    assert (trace + [u])[..|trace|] == trace;
  }

  function CachedAfter(sh: Shape, side: bool, trace: seq<Event>, u: Event, slot: nat): Entry {
    var e := Cached(sh, side, trace, slot);
    if ChoiceFor(sh, trace, u.branch.pc) == side && SlotFor(sh, trace, u.branch.pc) == slot
    then Revised(e, side, sh.Tag(u.branch.pc), u.branch.jump) else e
  }

  lemma CachedNext(sh: Shape, side: bool, trace: seq<Event>, u: Event, slot: nat)
    ensures Cached(sh, side, trace + [u], slot) == CachedAfter(sh, side, trace, u, slot)
  {
    assert (trace + [u])[..|trace|] == trace;
  }

  /** A cache, or the choice table, holds what the trace calls for. */
  ghost predicate CacheHolds(sh: Shape, side: bool, trace: seq<Event>, cache: seq<Entry>) {
    |cache| == Pow2(sh.pcWidth) && forall i :: 0 <= i < |cache| ==> cache[i] == Cached(sh, side, trace, i)
  }

  ghost predicate ChoiceHolds(sh: Shape, trace: seq<Event>, choice: seq<nat>) {
    |choice| == Pow2(sh.choiceWidth) && forall i :: 0 <= i < |choice| ==> choice[i] == Choice(sh, trace, i)
  }

  lemma CacheHoldsNext(sh: Shape, side: bool, trace: seq<Event>, u: Event, cache: seq<Entry>, cache': seq<Entry>, slot: nat)
    requires CacheHolds(sh, side, trace, cache) && slot == SlotFor(sh, trace, u.branch.pc) < |cache|
    requires cache' == if ChoiceFor(sh, trace, u.branch.pc) == side
                       then cache[slot := Revised(cache[slot], side, sh.Tag(u.branch.pc), u.branch.jump)] else cache
    ensures CacheHolds(sh, side, trace + [u], cache')
  {
    forall i | 0 <= i < |cache'| ensures cache'[i] == Cached(sh, side, trace + [u], i) {
      CachedNext(sh, side, trace, u, i);
    }
  }

  lemma ChoiceHoldsNext(sh: Shape, trace: seq<Event>, u: Event, choice: seq<nat>, choice': seq<nat>, slot: nat)
    requires ChoiceHolds(sh, trace, choice) && slot == sh.ChoiceSlot(u.branch.pc) < |choice|
    requires choice' == choice[slot := ChoiceAfter(sh, u, slot, choice[slot])]
    ensures ChoiceHolds(sh, trace + [u], choice')
  {
    forall i | 0 <= i < |choice'| ensures choice'[i] == Choice(sh, trace + [u], i) {
      ChoiceNext(sh, trace, u, i);
    }
  }

  /** An update changes at most one entry of one cache: the one that the choice counter and the history point to. */
  lemma OneEntryChanges(sh: Shape, side: bool, trace: seq<Event>, u: Event, slot: nat)
    requires Cached(sh, side, trace + [u], slot) != Cached(sh, side, trace, slot)
    ensures side == ChoiceFor(sh, trace, u.branch.pc) && slot == SlotFor(sh, trace, u.branch.pc)
  {
    CachedNext(sh, side, trace, u, slot);
  }

  class Predictor {
    const sh: Shape
    const cacheT: array<Entry>
    const cacheNt: array<Entry>
    const choice: array<nat>
    var history: nat
    ghost var trace: seq<Event>

    ghost predicate Valid()
      reads this, cacheT, cacheNt, choice
    {
      && sh.width <= sh.pcWidth && cacheT != cacheNt && history == History(Branches(trace), sh.width)
      && CacheHolds(sh, false, trace, cacheT[..]) && CacheHolds(sh, true, trace, cacheNt[..])
      && ChoiceHolds(sh, trace, choice[..])
    }

    constructor (sh: Shape)
      requires sh.width <= sh.pcWidth
      ensures Valid() && fresh(cacheT) && fresh(cacheNt) && fresh(choice) && trace == [] && this.sh == sh
    {
      this.sh := sh;
      cacheT := new Entry[Pow2(sh.pcWidth)](_ => EMPTY);
      cacheNt := new Entry[Pow2(sh.pcWidth)](_ => EMPTY);
      choice := new nat[Pow2(sh.choiceWidth)](_ => 0);
      history := 0;
      trace := [];
    }

    method Get(pc: nat) returns (taken: bool)
      requires Valid()
      ensures taken == Prediction(sh, trace, pc)
    {
      SlotsInRange(sh, trace, pc);
      var slot := Xor(history, And(pc / 4, Pow2(sh.pcWidth) - 1));
      var predictTaken := choice[And(pc / 4, Pow2(sh.choiceWidth) - 1)] >= 2;
      var tag := And(pc / 4, Pow2(sh.tagWidth) - 1);
      var cacheHit, cacheTaken;
      if predictTaken {
        cacheHit := cacheNt[slot].valid && cacheNt[slot].tag == tag;
        cacheTaken := cacheNt[slot].count >= 2;
      } else {
        cacheHit := cacheT[slot].valid && cacheT[slot].tag == tag;
        cacheTaken := cacheT[slot].count >= 2;
      }
      taken := if cacheHit then cacheTaken else predictTaken;
    }

    method Update(pc: nat, jump: bool, hit: bool)
      requires Valid()
      modifies this, cacheT, cacheNt, choice
      ensures Valid() && trace == old(trace) + [Event(Branch(pc, jump), hit)]
    {
      SlotsInRange(sh, trace, pc);
      var slot := Xor(history, And(pc / 4, Pow2(sh.pcWidth) - 1));
      var choiceSlot := And(pc / 4, Pow2(sh.choiceWidth) - 1);
      var tag := And(pc / 4, Pow2(sh.tagWidth) - 1);
      ghost var before, u := trace, Event(Branch(pc, jump), hit);
      ghost var ts, nts, cs := cacheT[..], cacheNt[..], choice[..];
      UpdateCaches(slot, tag, choice[choiceSlot] >= 2, jump);
      UpdateChoice(choiceSlot, jump, hit, u);
      history := And(Or(Bit(jump), history * Pow2(1)), Pow2(sh.width) - 1);
      trace := trace + [u];
      HistoryNext(sh, before, u);
      CacheHoldsNext(sh, false, before, u, ts, cacheT[..], slot);
      CacheHoldsNext(sh, true, before, u, nts, cacheNt[..], slot);
      ChoiceHoldsNext(sh, before, u, cs, choice[..], choiceSlot);
    }

    method UpdateChoice(slot: nat, jump: bool, hit: bool, ghost u: Event)
      requires slot < choice.Length && u.branch.jump == jump && u.hit == hit && slot == sh.ChoiceSlot(u.branch.pc)
      modifies choice
      ensures choice[..] == old(choice[..])[slot := ChoiceAfter(sh, u, slot, old(choice[slot]))]
    {
      if !((choice[slot] >= 2) != jump && hit) {
        if jump {
          choice[slot] := if choice[slot] + 1 < 3 then choice[slot] + 1 else 3;
        } else {
          choice[slot] := if choice[slot] > 0 then choice[slot] - 1 else 0;
        }
      }
    }

    method UpdateCaches(slot: nat, tag: nat, predictTaken: bool, jump: bool)
      requires slot < cacheT.Length == cacheNt.Length && cacheT != cacheNt
      modifies cacheT, cacheNt
      ensures cacheT[..] == if predictTaken then old(cacheT[..])
                            else old(cacheT[..])[slot := Revised(old(cacheT[slot]), false, tag, jump)]
      ensures cacheNt[..] == if !predictTaken then old(cacheNt[..])
                             else old(cacheNt[..])[slot := Revised(old(cacheNt[slot]), true, tag, jump)]
    {
      var cacheHit;
      if predictTaken {
        cacheHit := cacheNt[slot].valid && cacheNt[slot].tag == tag;
      } else {
        cacheHit := cacheT[slot].valid && cacheT[slot].tag == tag;
      }
      var cacheTUpdate, cacheNtUpdate := false, false;
      if predictTaken != jump {
        if jump {
          cacheTUpdate := true;
        } else {
          cacheNtUpdate := true;
        }
      }
      if cacheHit {
        if predictTaken {
          cacheNtUpdate := true;
        } else {
          cacheTUpdate := true;
        }
      }
      if cacheTUpdate {
        Write(cacheT, slot, tag, 3, jump);
      }
      if cacheNtUpdate {
        Write(cacheNt, slot, tag, 0, jump);
      }
    }

    /** One more outcome for the entry of this tag; a new entry starts from `start`. */
    method Write(cache: array<Entry>, slot: nat, tag: nat, start: nat, jump: bool)
      requires slot < cache.Length
      modifies cache
      ensures var e := old(cache[slot]);
              cache[..] == old(cache[..])[slot := Entry(tag, true, Bump(if Matches(e, tag) then e.count else start, jump))]
    {
      var origin := if cache[slot].valid && cache[slot].tag == tag then cache[slot].count else start;
      var count;
      if jump {
        count := if origin + 1 < 3 then origin + 1 else 3;
      } else {
        count := if origin > 0 then origin - 1 else 0;
      }
      cache[slot] := Entry(tag, true, count);
    }
  }

  // ----- what an entry means -----

  /** Update i could give the slot to its tag: the choice counter foresaw the other outcome. */
  predicate Claims(sh: Shape, side: bool, trace: seq<Event>, i: nat, slot: nat)
    requires i < |trace|
  {
    Consulted(sh, side, trace, i, slot) && trace[i].branch.jump != side
  }

  function TagAt(sh: Shape, trace: seq<Event>, i: nat): nat
    requires i < |trace|
  {
    sh.Tag(trace[i].branch.pc)
  }

  /** A counter that starts at 3 (at 0 beside a taken choice) and follows the outcomes of this slot and tag in m..n. */
  function Followed(sh: Shape, side: bool, trace: seq<Event>, slot: nat, tag: nat, m: nat, n: nat): nat
    requires n <= |trace|
  {
    if n <= m then (if side then 0 else 3)
    else
      var count := Followed(sh, side, trace, slot, tag, m, n - 1);
      if Consulted(sh, side, trace, n - 1, slot) && TagAt(sh, trace, n - 1) == tag
      then Bump(count, trace[n - 1].branch.jump) else count
  }

  /** Update m gave the slot to this tag, and nothing has taken it away since. */
  ghost predicate AllocatedAt(sh: Shape, side: bool, trace: seq<Event>, slot: nat, tag: nat, m: nat) {
    && m < |trace| && Claims(sh, side, trace, m, slot) && TagAt(sh, trace, m) == tag
    && !Matches(Cached(sh, side, trace[..m], slot), tag)
    && forall k :: m < k < |trace| && Claims(sh, side, trace, k, slot) ==> TagAt(sh, trace, k) == tag
  }

  lemma ClaimsEarlier(sh: Shape, side: bool, trace: seq<Event>, slot: nat, k: nat)
    requires k < |trace| - 1
    ensures Claims(sh, side, trace[..|trace| - 1], k, slot) == Claims(sh, side, trace, k, slot)
    ensures Consulted(sh, side, trace[..|trace| - 1], k, slot) == Consulted(sh, side, trace, k, slot)
    ensures TagAt(sh, trace[..|trace| - 1], k) == TagAt(sh, trace, k)
  {
    assert trace[..|trace| - 1][..k] == trace[..k];
  }

  /** A valid entry counts the outcomes that it was consulted for since its latest allocation. */
  lemma {:induction false} EntryLaw(sh: Shape, side: bool, trace: seq<Event>, slot: nat) returns (m: nat)
    requires Cached(sh, side, trace, slot).valid
    ensures AllocatedAt(sh, side, trace, slot, Cached(sh, side, trace, slot).tag, m)
    ensures Cached(sh, side, trace, slot).count == Followed(sh, side, trace, slot, Cached(sh, side, trace, slot).tag, m, |trace|)
  {
    var n := |trace| - 1;
    var before, tag := trace[..n], Cached(sh, side, trace, slot).tag;
    if Claims(sh, side, trace, n, slot) && !Matches(Cached(sh, side, before, slot), TagAt(sh, trace, n)) {
      m := n;
      assert Followed(sh, side, trace, slot, tag, n, n) == if side then 0 else 3;
    } else {
      m := EntryLaw(sh, side, before, slot);
      assert Cached(sh, side, before, slot).tag == tag;
      Longer(sh, side, trace, slot, tag, m, n);
      StillAllocated(sh, side, trace, slot, tag, m);
    }
  }

  lemma StillAllocated(sh: Shape, side: bool, trace: seq<Event>, slot: nat, tag: nat, m: nat)
    requires trace != [] && AllocatedAt(sh, side, trace[..|trace| - 1], slot, tag, m)
    requires Claims(sh, side, trace, |trace| - 1, slot) ==> TagAt(sh, trace, |trace| - 1) == tag
    ensures AllocatedAt(sh, side, trace, slot, tag, m)
  {
    ClaimsEarlier(sh, side, trace, slot, m);
    assert trace[..|trace| - 1][..m] == trace[..m];
    forall k | m < k < |trace| && Claims(sh, side, trace, k, slot) ensures TagAt(sh, trace, k) == tag {
      if k < |trace| - 1 {
        ClaimsEarlier(sh, side, trace, slot, k);
      }
    }
  }

  lemma {:induction false} Longer(sh: Shape, side: bool, trace: seq<Event>, slot: nat, tag: nat, m: nat, n: nat)
    requires n < |trace|
    ensures Followed(sh, side, trace[..|trace| - 1], slot, tag, m, n) == Followed(sh, side, trace, slot, tag, m, n)
  {
    if n > m {
      Longer(sh, side, trace, slot, tag, m, n - 1);
      ClaimsEarlier(sh, side, trace, slot, n - 1);
    }
  }

  /** What an entry holds that follows the outcomes of its slot and tag from update m up to update n. */
  ghost predicate Follows(sh: Shape, side: bool, trace: seq<Event>, slot: nat, tag: nat, m: nat, n: nat, e: Entry) {
    n <= |trace| && Matches(e, tag) && e.count == Followed(sh, side, trace, slot, tag, m, n)
  }

  /** As long as nothing takes it away, the slot stays with the tag it was given to. */
  lemma StaysWithTag(sh: Shape, side: bool, trace: seq<Event>, slot: nat, tag: nat, m: nat, n: nat)
    requires AllocatedAt(sh, side, trace, slot, tag, m) && m < n <= |trace|
    ensures Follows(sh, side, trace, slot, tag, m, n, Cached(sh, side, trace[..n], slot)) == true
  {
    EntryNext(sh, side, trace, slot, m);
    StartsFull(sh, side, trace, slot, tag, m);
    for i := m + 1 to n
      invariant Follows(sh, side, trace, slot, tag, m, i, Cached(sh, side, trace[..i], slot)) == true
    {
      EntryNext(sh, side, trace, slot, i);
      assert Claims(sh, side, trace, i, slot) ==> TagAt(sh, trace, i) == tag;
      FollowsOn(sh, side, trace, slot, tag, m, i, Cached(sh, side, trace[..i], slot), Cached(sh, side, trace[..i + 1], slot));
    }
  }

  lemma FollowsOn(sh: Shape, side: bool, trace: seq<Event>, slot: nat, tag: nat, m: nat, i: nat, e: Entry, e': Entry)
    requires m < i < |trace| && Follows(sh, side, trace, slot, tag, m, i, e)
    requires Claims(sh, side, trace, i, slot) ==> TagAt(sh, trace, i) == tag
    requires e' == if Consulted(sh, side, trace, i, slot) then Revised(e, side, TagAt(sh, trace, i), trace[i].branch.jump) else e
    ensures Follows(sh, side, trace, slot, tag, m, i + 1, e') == true
  {
  }

  /** The first outcome leaves a new entry as it starts. */
  lemma StartsFull(sh: Shape, side: bool, trace: seq<Event>, slot: nat, tag: nat, m: nat)
    requires m < |trace| && Claims(sh, side, trace, m, slot) && TagAt(sh, trace, m) == tag
    ensures Followed(sh, side, trace, slot, tag, m, m + 1) == if side then 0 else 3
  {
    assert Followed(sh, side, trace, slot, tag, m, m) == if side then 0 else 3;
  }

  /** The entry after update n. */
  lemma EntryNext(sh: Shape, side: bool, trace: seq<Event>, slot: nat, n: nat)
    requires n < |trace|
    ensures Cached(sh, side, trace[..n + 1], slot)
         == if Consulted(sh, side, trace, n, slot)
            then Revised(Cached(sh, side, trace[..n], slot), side, TagAt(sh, trace, n), trace[n].branch.jump)
            else Cached(sh, side, trace[..n], slot)
  {
    assert trace[..n + 1][..n] == trace[..n] && trace[..n + 1][n] == trace[n];
    assert Consulted(sh, side, trace[..n + 1], n, slot) == Consulted(sh, side, trace, n, slot);
  }

  /** A branch that was given the slot is predicted by its outcomes since then; any other as the choice has it. */
  lemma Predicts(sh: Shape, trace: seq<Event>, pc: nat, side: bool, slot: nat, tag: nat)
    requires side == ChoiceFor(sh, trace, pc) && slot == SlotFor(sh, trace, pc) && tag == sh.Tag(pc)
    ensures forall m :: AllocatedAt(sh, side, trace, slot, tag, m) ==>
              (Prediction(sh, trace, pc) <==> Followed(sh, side, trace, slot, tag, m, |trace|) >= 2)
    ensures (forall m :: !AllocatedAt(sh, side, trace, slot, tag, m)) ==> Prediction(sh, trace, pc) == side
  {
    assert trace[..|trace|] == trace;
    forall m | AllocatedAt(sh, side, trace, slot, tag, m)
      ensures Prediction(sh, trace, pc) <==> Followed(sh, side, trace, slot, tag, m, |trace|) >= 2
    {
      StaysWithTag(sh, side, trace, slot, tag, m, |trace|);
      assert Follows(sh, side, trace, slot, tag, m, |trace|, Cached(sh, side, trace, slot));
    }
    if Matches(Cached(sh, side, trace, slot), tag) {
      var m := EntryLaw(sh, side, trace, slot);
    }
  }

  ghost predicate Claimed(sh: Shape, side: bool, trace: seq<Event>, slot: nat) {
    exists k :: 0 <= k < |trace| && Claims(sh, side, trace, k, slot)
  }

  /** An entry is valid exactly if some update could have allocated it. */
  lemma {:induction false} ValidIfClaimed(sh: Shape, side: bool, trace: seq<Event>, slot: nat)
    ensures Cached(sh, side, trace, slot).valid <==> Claimed(sh, side, trace, slot)
  {
    if trace != [] {
      ValidIfClaimed(sh, side, trace[..|trace| - 1], slot);
      ClaimedStep(sh, side, trace, slot);
    }
  }

  lemma ClaimedStep(sh: Shape, side: bool, trace: seq<Event>, slot: nat)
    requires trace != []
    ensures Claimed(sh, side, trace, slot)
            <==> Claimed(sh, side, trace[..|trace| - 1], slot) || Claims(sh, side, trace, |trace| - 1, slot)
  {
    var n := |trace| - 1;
    if Claimed(sh, side, trace[..n], slot) {
      var k :| 0 <= k < n && Claims(sh, side, trace[..n], k, slot);
      ClaimsEarlier(sh, side, trace, slot, k);
    }
    if Claimed(sh, side, trace, slot) {
      var k :| 0 <= k < |trace| && Claims(sh, side, trace, k, slot);
      if k < n {
        ClaimsEarlier(sh, side, trace, slot, k);
      }
    }
  }

  /** The outcomes of the branches of a choice slot. */
  function SlotOutcomes(sh: Shape, trace: seq<Event>, slot: nat): seq<bool> {
    if trace == [] then []
    else
      var before, u := trace[..|trace| - 1], trace[|trace| - 1];
      SlotOutcomes(sh, before, slot) + if sh.ChoiceSlot(u.branch.pc) == slot then [u.branch.jump] else []
  }

  /** As long as no prediction hits, a choice counter follows all outcomes of its slot. */
  lemma {:induction false} ChoiceFollows(sh: Shape, trace: seq<Event>, slot: nat)
    requires forall i :: 0 <= i < |trace| ==> !trace[i].hit
    ensures Choice(sh, trace, slot) == Counter(SlotOutcomes(sh, trace, slot))
  {
    if trace != [] {
      var before, u := trace[..|trace| - 1], trace[|trace| - 1];
      ChoiceFollows(sh, before, slot);
      CounterNext(SlotOutcomes(sh, before, slot), sh.ChoiceSlot(u.branch.pc) == slot, u.branch.jump);
    }
  }

  /** When `hit` is true of the prediction, the choice counter stays exactly if it was wrong and the cache was right. */
  lemma ChoiceStays(sh: Shape, trace: seq<Event>, u: Event)
    requires u.hit == (Prediction(sh, trace, u.branch.pc) == u.branch.jump)
    ensures var side := ChoiceFor(sh, trace, u.branch.pc);
            var e := Cached(sh, side, trace, SlotFor(sh, trace, u.branch.pc));
            var count := Choice(sh, trace, sh.ChoiceSlot(u.branch.pc));
            Choice(sh, trace + [u], sh.ChoiceSlot(u.branch.pc)) ==
              if side != u.branch.jump && Matches(e, sh.Tag(u.branch.pc)) && (e.count >= 2) == u.branch.jump then count
              else Bump(count, u.branch.jump)
  {
    ChoiceNext(sh, trace, u, sh.ChoiceSlot(u.branch.pc));
  }
}
