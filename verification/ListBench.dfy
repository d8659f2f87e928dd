/** The list benchmark: find, reverse, move to front, remove, undo, and `core_bench_list` itself. */
module ListBench {
  import opened Bits
  import opened Crc
  import opened Fold
  import opened ListTypes
  import opened ListSort
  import opened Words

  // ----- find -----

  /** What `core_list_find` looks for: an index if it is not negative, otherwise a low data byte. */
  ghost predicate Matches(v: Value, idx: S16, data16: Word) {
    if idx >= 0 then v.idx == idx else v.data % 0x100 == data16
  }

  /** `core_list_find`: the first cell that matches, or NULL if there is none. */
  method Find(list: Node?, idx: S16, data16: Word, ghost s: seq<Node>)
    returns (found: Node?, ghost k: nat)
    requires Chain(list, s)
    ensures k <= |s| && found == At(s, k)
    ensures found == null <==> forall l :: 0 <= l < |s| ==> !Matches(ValueOf(s[l]), idx, data16)
    ensures k < |s| ==> Matches(ValueOf(s[k]), idx, data16)
    ensures forall l :: 0 <= l < k ==> !Matches(ValueOf(s[l]), idx, data16)
  {
    found, k := list, 0;
    if idx >= 0 {
      while found != null && found.info.idx != idx
        invariant k <= |s| && found == At(s, k)
        invariant forall l :: 0 <= l < k ==> !Matches(ValueOf(s[l]), idx, data16)
        decreases |s| - k
      {
        found, k := found.next, k + 1;
      }
    } else {
      while found != null && found.info.data16 % 0x100 != data16
        invariant k <= |s| && found == At(s, k)
        invariant forall l :: 0 <= l < k ==> !Matches(ValueOf(s[l]), idx, data16)
        decreases |s| - k
      {
        found, k := found.next, k + 1;
      }
    }
  }

  // ----- reverse -----

  function Reversed<T>(s: seq<T>): (r: seq<T>)
    ensures |r| == |s| && forall i :: 0 <= i < |s| ==> r[i] == s[|s| - 1 - i]
  {
    seq(|s|, i requires 0 <= i < |s| => s[|s| - 1 - i])
  }

  lemma {:induction false} ReversedSame<T>(s: seq<T>)
    ensures multiset(Reversed(s)) == multiset(s)
  {
    if s == [] {
    } else {
      ReversedSame(s[1..]);
      assert Reversed(s) == Reversed(s[1..]) + [s[0]];
      assert s == [s[0]] + s[1..];
    }
  }

  /** `core_list_reverse`. */
  method Reverse(list0: Node?, ghost s: seq<Node>) returns (list: Node?)
    requires Chain(list0, s)
    modifies CellsOf(s)`next
    ensures Chain(list, Reversed(s)) == true
  {
    var rest := list0;
    list := null;
    ghost var i: nat := 0;
    while rest != null
      invariant i <= |s| && rest == At(s, i) && list == (if i == 0 then null else s[i - 1])
      invariant forall k {:trigger s[k].next} :: 0 <= k < i ==> s[k].next == if k == 0 then null else s[k - 1]
      invariant forall k {:trigger s[k].next} :: i <= k < |s| ==> s[k].next == At(s, k + 1)
      decreases |s| - i
    {
      var tmp := rest.next;
      rest.next := list;
      list := rest;
      rest := tmp;
      i := i + 1;
    }
    ReversedChain(list, s);
  }

  lemma ReversedChain(list: Node?, s: seq<Node>)
    requires NoDup(s) && list == if |s| == 0 then null else s[|s| - 1]
    requires forall k {:trigger s[k].next} :: 0 <= k < |s| ==> s[k].next == if k == 0 then null else s[k - 1]
    ensures Chain(list, Reversed(s)) == true
  {
    var r := Reversed(s);
    forall k | 0 <= k < |r| ensures r[k].next == At(r, k + 1) {
      assert r[k] == s[|s| - 1 - k];
    }
  }

  // ----- move to front -----

  /** The cell after position k moved behind the head. */
  function MovedUp(s: seq<Node>, k: nat): (t: seq<Node>)
    requires k < |s|
  {
    if k + 1 < |s| then [s[0], s[k + 1]] + s[1..k + 1] + s[k + 2..] else s
  }

  lemma MovedUpAt(s: seq<Node>, k: nat)
    requires k + 1 < |s|
    ensures var t := MovedUp(s, k);
            && |t| == |s| && t[0] == s[0] && t[1] == s[k + 1]
            && (forall i :: 2 <= i < k + 2 ==> t[i] == s[i - 1])
            && (forall i :: k + 2 <= i < |s| ==> t[i] == s[i])
    ensures multiset(MovedUp(s, k)) == multiset(s)
  {
    assert s == [s[0]] + s[1..k + 1] + [s[k + 1]] + s[k + 2..];
  }

  /** The caching step of the find loop: the successor of the found cell is relinked behind the head. */
  method MoveUp(list: Node, found: Node, ghost s: seq<Node>, ghost k: nat)
    requires Chain(list, s) == true && k < |s| && found == s[k]
    modifies CellsOf(s)`next
    ensures Chain(list, MovedUp(s, k)) == true && multiset(MovedUp(s, k)) == multiset(s)
  {
    if found.next != null {
      var finder := found.next;
      assert finder == s[k + 1];
      assert k == 0 || s[0].next == s[1];
      found.next := finder.next;
      finder.next := list.next;
      list.next := finder;
      MovedUpChain(list, s, k);
    }
  }

  lemma MovedUpChain(list: Node, s: seq<Node>, k: nat)
    requires NoDup(s) && k + 1 < |s| && list == s[0]
    requires s[0].next == s[k + 1] && s[k + 1].next == (if k == 0 then At(s, 2) else s[1])
    requires k > 0 ==> s[k].next == At(s, k + 2)
    requires forall i {:trigger s[i].next} :: 1 <= i < |s| && i != k && i != k + 1 ==> s[i].next == At(s, i + 1)
    ensures Chain(list, MovedUp(s, k)) == true && multiset(MovedUp(s, k)) == multiset(s)
  {
    var t := MovedUp(s, k);
    MovedUpAt(s, k);
    NoDupTransfers(s, t);
    forall i | 0 <= i < |t| ensures t[i].next == At(t, i + 1) {
      if i >= k + 2 {
        assert t[i] == s[i];
      } else if i >= 2 {
        assert t[i] == s[i - 1];
      }
    }
  }

  // ----- remove and undo -----

  /** The list without its cell at position k. */
  function Without(s: seq<Node>, k: nat): seq<Node>
    requires k < |s|
  {
    s[..k] + s[k + 1..]
  }

  /** `core_list_remove`: the payloads of the item and of its successor change places and the successor is unlinked. */
  method Remove(item: Node, ghost list: Node, ghost s: seq<Node>, ghost k: nat) returns (removed: Node)
    requires Chain(list, s) && k + 1 < |s| && item == s[k]
    modifies item, item.next
    ensures removed == s[k + 1] && Chain(list, Without(s, k + 1)) && removed.next == null
    ensures item.info == old(s[k + 1].info) && removed.info == old(item.info)
  {
    removed := item.next;
    var tmp := item.info;
    item.info := removed.info;
    removed.info := tmp;
    item.next := item.next.next;
    removed.next := null;
    ghost var t := Without(s, k + 1);
    forall i | 0 <= i < |t| ensures t[i].next == At(t, i + 1) {
      assert t[i] == if i <= k then s[i] else s[i + 1];
    }
  }

  /** `core_list_undo_remove`: put a removed cell back behind the item that took its payload. */
  method UndoRemove(removed: Node, item: Node, ghost list: Node, ghost s: seq<Node>, ghost k: nat) returns (r: Node)
    requires NoDup(s) && k + 1 < |s| && item == s[k] && removed == s[k + 1] && Chain(list, Without(s, k + 1))
    modifies item, removed
    ensures r == removed && Chain(list, s)
    ensures item.info == old(removed.info) && removed.info == old(item.info)
  {
    ghost var t := Without(s, k + 1);
    assert t[k] == item;
    assert forall i :: 0 <= i < |t| ==> t[i] == if i <= k then s[i] else s[i + 1];
    var tmp := removed.info;
    removed.info := item.info;
    item.info := tmp;
    removed.next := item.next;
    item.next := removed;
    forall i | 0 <= i < |s| ensures s[i].next == At(s, i + 1) {
      if i < k {
        assert t[i] == s[i];
      } else if i > k + 1 {
        assert t[i - 1] == s[i];
      }
    }
    r := removed;
  }

  // ----- the find loop -----

  function ToS16(x: int): S16 { (x + 0x8000) % 0x10000 - 0x8000 }

  function ToU16(x: int): Word { x % 0x10000 }

  /** The variables of the find loop of `core_bench_list`: the list in its current order, the sought item, the counters. */
  datatype Finding = Finding(order: seq<Node>, idx: S16, data16: Word, retval: Word, found: Word, missed: Word)

  ghost predicate Permuted(s: seq<Node>, t: seq<Node>) {
    multiset(s) == multiset(t)
  }

  ghost predicate Within(s: seq<Node>, v: View) {
    forall k :: 0 <= k < |s| ==> s[k] in v
  }

  /** The payloads of the cells of s are as v says. */
  ghost predicate Shows(v: View, s: seq<Node>)
    reads s`info, InfosOf(s)
  {
    Within(s, v) && forall k :: 0 <= k < |s| ==> v[s[k]] == ValueOf(s[k])
  }

  /** The position of the first match. */
  ghost function FirstMatch(v: View, s: seq<Node>, idx: S16, data16: Word): (k: nat)
    requires Within(s, v)
    ensures k <= |s|
  {
    if s == [] || Matches(v[s[0]], idx, data16) then 0 else 1 + FirstMatch(v, s[1..], idx, data16)
  }

  lemma {:induction false} FirstMatchIs(v: View, s: seq<Node>, idx: S16, data16: Word, k: nat)
    requires Within(s, v) && k <= |s|
    requires k < |s| ==> Matches(v[s[k]], idx, data16)
    requires forall l :: 0 <= l < k ==> !Matches(v[s[l]], idx, data16)
    ensures FirstMatch(v, s, idx, data16) == k
  {
    if k > 0 {
      assert !Matches(v[s[0]], idx, data16);
      FirstMatchIs(v, s[1..], idx, data16, k - 1);
    }
  }

  /** An index counts up and wraps around; a negative one, which means that there is none, stays. */
  function NextIdx(idx: S16): (next: S16)
    ensures idx < 0 ==> next == idx
    ensures 0 <= idx < 0x7fff ==> next == idx + 1
    ensures idx == 0x7fff ==> next == -0x8000
  {
    if idx >= 0 then ToS16(idx + 1) else idx
  }

  function MissScore(retval: Word, behindHead: Word): Word { ToU16(retval + HighByte(behindHead) % 2) }

  function HitScore(retval: Word, hit: Word): Word { ToU16(retval + if hit % 2 == 1 then (hit / 0x200) % 2 else 0) }

  /** The list after one round: reversed, and the found cell's new successor moved behind the head. */
  function Reordered(s: seq<Node>, k: nat): (t: seq<Node>)
    requires k <= |s|
  {
    if k == |s| then Reversed(s) else MovedUp(Reversed(s), |s| - 1 - k)
  }

  lemma ReorderedSame(s: seq<Node>, k: nat)
    requires k <= |s|
    ensures |Reordered(s, k)| == |s| && Permuted(Reordered(s, k), s)
  {
    ReversedSame(s);
    if k < |s| {
      var r := Reversed(s);
      MovedUpSame(r, |s| - 1 - k);
      assert Reordered(s, k) == MovedUp(r, |s| - 1 - k);
    }
  }

  lemma MovedUpSame(s: seq<Node>, k: nat)
    requires k < |s|
    ensures |MovedUp(s, k)| == |s| && multiset(MovedUp(s, k)) == multiset(s)
  {
    if k + 1 < |s| {
      MovedUpAt(s, k);
    }
  }

  lemma PermutedWithin(s: seq<Node>, t: seq<Node>, v: View)
    requires Permuted(s, t) && Within(s, v)
    ensures |t| == |s| && Within(t, v)
  {
    assert |multiset(s)| == |multiset(t)|;
    forall k | 0 <= k < |t| ensures t[k] in v {
      assert t[k] in multiset(s);
    }
  }

  /**
   * One round: search, reverse, score, and move the found cell's new successor to the front. The cells stay the same.
   */
  ghost function FindRound(v: View, f: Finding, i: int): (g: Finding)
    requires |f.order| >= 2 && Within(f.order, v)
    ensures |g.order| == |f.order| && Within(g.order, v) && Permuted(g.order, f.order)
  {
    ReorderedSame(f.order, FirstMatch(v, f.order, f.idx, ToU16(i) % 0x100));
    PermutedWithin(f.order, Reordered(f.order, FirstMatch(v, f.order, f.idx, ToU16(i) % 0x100)), v);
    var data := ToU16(i) % 0x100;
    var k := FirstMatch(v, f.order, f.idx, data);
    var order := Reordered(f.order, k);
    if k == |f.order| then
      var behindHead := f.order[|f.order| - 2];
      Finding(order, NextIdx(f.idx), data, MissScore(f.retval, v[behindHead].data), f.found, ToU16(f.missed + 1))
    else
      Finding(order, NextIdx(f.idx), data, HitScore(f.retval, v[f.order[k]].data), ToU16(f.found + 1), f.missed)
  }

  /** The first half of a round: search the list, then reverse it. */
  method SearchAndReverse(list0: Node, idx: S16, data16: Word, ghost s: seq<Node>, ghost v: View)
    returns (list: Node, thisFind: Node?, ghost k: nat)
    requires Chain(list0, s) == true && |s| >= 2 && Shows(v, s) == true
    modifies CellsOf(s)`next
    ensures k == FirstMatch(v, s, idx, data16)
    ensures Chain(list, Reversed(s)) == true && list.next == Reversed(s)[1]
    ensures thisFind == At(s, k) && (k < |s| ==> thisFind == Reversed(s)[|s| - 1 - k])
  {
    thisFind, k := Find(list0, idx, data16, s);
    FirstMatchIs(v, s, idx, data16, k);
    list := Reverse(list0, s);
  }

  lemma ReversedCells(s: seq<Node>)
    ensures CellsOf(Reversed(s)) == CellsOf(s) && multiset(Reversed(s)) == multiset(s)
  {
    ReversedSame(s);
    SameCells(s, Reversed(s));
  }

  /** The data word that a round's score is made from. */
  ghost function Seen(v: View, s: seq<Node>, k: nat): Word
    requires Within(s, v) && |s| >= 2 && k <= |s|
  {
    if k < |s| then v[s[k]].data else v[s[|s| - 2]].data
  }

  /** Nothing was found: look at the cell behind the new head. */
  method ReadBehind(list: Node, ghost s: seq<Node>, ghost v: View) returns (seen: Word)
    requires |s| >= 2 && Shows(v, s) == true && list.next == s[|s| - 2]
    ensures Within(s, v) && seen == Seen(v, s, |s|)
  {
    seen := list.next.info.data16;
  }

  /** Something was found: look at it, and move its new successor up. */
  method ReadAndMoveUp(list: Node, found: Node, ghost s: seq<Node>, ghost v: View, ghost k: nat) returns (seen: Word)
    requires |s| >= 2 && Shows(v, s) == true && k < |s| && found == s[k] && found == Reversed(s)[|s| - 1 - k]
    requires Chain(list, Reversed(s)) == true
    modifies CellsOf(Reversed(s))`next
    ensures Within(s, v) && seen == Seen(v, s, k)
    ensures Chain(list, Reordered(s, k)) == true && Permuted(Reordered(s, k), Reversed(s)) == true
  {
    seen := found.info.data16;
    MoveUp(list, found, Reversed(s), |s| - 1 - k);
    assert Reordered(s, k) == MovedUp(Reversed(s), |s| - 1 - k);
  }

  /** The list work of a round; `seen` is the data word that the round's score is made from. */
  method Reorder(list0: Node, idx: S16, data16: Word, ghost s: seq<Node>, ghost v: View)
    returns (list: Node, hit: bool, seen: Word, ghost k: nat)
    requires Chain(list0, s) == true && |s| >= 2 && Shows(v, s) == true
    modifies CellsOf(s)`next
    ensures k == FirstMatch(v, s, idx, data16) && hit == (k < |s|) && Within(s, v) && seen == Seen(v, s, k)
    ensures Chain(list, Reordered(s, k)) == true && Permuted(Reordered(s, k), s) == true
  {
    var thisFind;
    list, thisFind, k := SearchAndReverse(list0, idx, data16, s, v);
    ReversedCells(s);
    if thisFind == null {
      hit := false;
      seen := ReadBehind(list, s, v);
    } else {
      hit := true;
      seen := ReadAndMoveUp(list, thisFind, s, v, k);
      PermutedTransitive(Reordered(s, k), Reversed(s), s);
    }
  }

  lemma FindRoundIs(v: View, f: Finding, i: int, k: nat, seen: Word, retval: Word, found: Word, missed: Word)
    requires |f.order| >= 2 && Within(f.order, v)
    requires k == FirstMatch(v, f.order, f.idx, ToU16(i) % 0x100)
    requires seen == Seen(v, f.order, k)
    requires if k < |f.order| then retval == HitScore(f.retval, seen) && found == ToU16(f.found + 1) && missed == f.missed
             else retval == MissScore(f.retval, seen) && found == f.found && missed == ToU16(f.missed + 1)
    ensures FindRound(v, f, i) == Finding(Reordered(f.order, k), NextIdx(f.idx), ToU16(i) % 0x100, retval, found, missed)
  {
  }

  /** One search, counted as found or as missed. */
  predicate CountedOnce(found: Word, missed: Word, found': Word, missed': Word) {
    || (found' == (found + 1) % 0x10000 && missed' == missed)
    || (found' == found && missed' == (missed + 1) % 0x10000)
  }

  /** The two counters together have counted n searches, modulo 2^16. */
  predicate Tallied(found: Word, missed: Word, n: nat) { (found + missed) % 0x10000 == n % 0x10000 }

  lemma CountsOne(found: Word, missed: Word, n: nat, found': Word, missed': Word)
    requires Tallied(found, missed, n) && CountedOnce(found, missed, found', missed') == true
    ensures Tallied(found', missed', n + 1) == true
  {
    OneMore(found + missed, n);
    if found' == (found + 1) % 0x10000 && missed' == missed {
      CarriedOver(found + 1, missed);
    } else {
      CarriedOver(missed + 1, found);
    }
  }

  lemma OneMore(x: nat, n: nat)
    requires x % 0x10000 == n % 0x10000
    ensures (x + 1) % 0x10000 == (n + 1) % 0x10000
  {
  }

  lemma CarriedOver(x: nat, y: nat)
    requires x <= 0x10000
    ensures (x % 0x10000 + y) % 0x10000 == (x + y) % 0x10000
  {
    if x == 0x10000 {
      assert (0x10000 + y) % 0x10000 == y % 0x10000;
    }
  }

  /** One round of the find loop. */
  method FindStep(list0: Node, i: int, idx0: S16, retval0: Word, found0: Word, missed0: Word,
                  ghost f: Finding, ghost v: View)
    returns (list: Node, idx: S16, data16: Word, retval: Word, found: Word, missed: Word, ghost g: Finding)
    requires Chain(list0, f.order) == true && |f.order| >= 2
    requires f.idx == idx0 && f.retval == retval0 && f.found == found0 && f.missed == missed0
    requires Shows(v, f.order) == true
    modifies CellsOf(f.order)`next
    ensures g == FindRound(v, f, i) && Chain(list, g.order) == true && Permuted(g.order, f.order) == true
    ensures Shows(v, g.order) == true && CellsOf(g.order) == CellsOf(f.order)
    ensures g == Finding(g.order, idx, data16, retval, found, missed) && CountedOnce(found0, missed0, found, missed) == true
  {
    idx, retval, found, missed := idx0, retval0, found0, missed0;
    data16 := ToU16(i) % 0x100;
    var hit, seen;
    ghost var k;
    list, hit, seen, k := Reorder(list0, idx, data16, f.order, v);
    if !hit {
      missed := ToU16(missed + 1);
      retval := MissScore(retval, seen);
    } else {
      found := ToU16(found + 1);
      retval := HitScore(retval, seen);
    }
    idx := NextIdx(idx);
    FindRoundIs(v, f, i, k, seen, retval, found, missed);
    g := Finding(Reordered(f.order, k), idx, data16, retval, found, missed);
    PermutedShows(v, f.order, g.order);
  }

  /** The first n rounds. */
  ghost function FindRounds(v: View, f: Finding, n: nat): (g: Finding)
    requires |f.order| >= 2 && Within(f.order, v)
    ensures |g.order| == |f.order| && Within(g.order, v) && Permuted(g.order, f.order)
  {
    if n == 0 then f else FindRound(v, FindRounds(v, f, n - 1), n - 1)
  }

  // ----- what the rounds search and score -----

  /** Position k holds the first match. */
  ghost predicate FoundAt(v: View, s: seq<Node>, idx: S16, data16: Word, k: nat) {
    && k < |s| && Within(s, v) && Matches(v[s[k]], idx, data16)
    && forall l :: 0 <= l < k ==> !Matches(v[s[l]], idx, data16)
  }

  /** Nothing matches. */
  ghost predicate NoneFound(v: View, s: seq<Node>, idx: S16, data16: Word) {
    Within(s, v) && forall l :: 0 <= l < |s| ==> !Matches(v[s[l]], idx, data16)
  }

  lemma FirstMatchFinds(v: View, s: seq<Node>, idx: S16, data16: Word)
    requires Within(s, v)
    ensures FirstMatch(v, s, idx, data16) < |s| ==> FoundAt(v, s, idx, data16, FirstMatch(v, s, idx, data16))
    ensures FirstMatch(v, s, idx, data16) == |s| ==> NoneFound(v, s, idx, data16)
    ensures forall k :: FoundAt(v, s, idx, data16, k) ==> k == FirstMatch(v, s, idx, data16)
  {
    FirstMatchMatches(v, s, idx, data16);
    forall k | FoundAt(v, s, idx, data16, k) ensures k == FirstMatch(v, s, idx, data16) {
      FirstMatchIs(v, s, idx, data16, k);
    }
  }

  /** The item sought in round i: an index that counts up from the first one, and wraps around once, or none at all. */
  function SoughtIdx(first: S16, i: nat): S16 {
    if first < 0 then first else if first + i <= 0x7fff then first + i else -0x8000
  }

  /** A point is scored: bits 0 and 9 of the cell found, or bit 8 of the cell behind the new head if none is found. */
  ghost predicate Point(v: View, s: seq<Node>, idx: S16, data16: Word) {
    || (exists k: nat :: FoundAt(v, s, idx, data16, k) && IsSet(v[s[k]].data, 0) && IsSet(v[s[k]].data, 9))
    || (|s| >= 2 && NoneFound(v, s, idx, data16) && IsSet(v[s[|s| - 2]].data, 8))
  }

  /** How many of the first n rounds score a point. */
  ghost function Points(v: View, start: Finding, n: nat): nat
    requires |start.order| >= 2 && Within(start.order, v)
  {
    if n == 0 then 0
    else
      var s := FindRounds(v, start, n - 1).order;
      Points(v, start, n - 1) + if Point(v, s, SoughtIdx(start.idx, n - 1), (n - 1) % 0x100) then 1 else 0
  }

  /** How many of the first n rounds find a cell. */
  ghost function Hits(v: View, start: Finding, n: nat): (h: nat)
    requires |start.order| >= 2 && Within(start.order, v)
    ensures h <= n
  {
    if n == 0 then 0
    else
      var s := FindRounds(v, start, n - 1).order;
      Hits(v, start, n - 1) + if NoneFound(v, s, SoughtIdx(start.idx, n - 1), (n - 1) % 0x100) then 0 else 1
  }

  lemma HitBits(retval: Word, seen: Word)
    ensures HitScore(retval, seen) == (retval + if IsSet(seen, 0) && IsSet(seen, 9) then 1 else 0) % 0x10000
  {
    BitIs(seen, 9);
    assert Pow2(9) == 0x200;
  }

  lemma MissBits(retval: Word, seen: Word)
    ensures MissScore(retval, seen) == (retval + if IsSet(seen, 8) then 1 else 0) % 0x10000
  {
    BitIs(seen, 8);
    assert Pow2(8) == 0x100;
  }

  /** What the variables of the find loop show after n rounds with so many hits and points. */
  ghost predicate Accounted(start: Finding, g: Finding, n: nat, hits: nat, points: nat) {
    && g.idx == SoughtIdx(start.idx, n) && g.data16 == (if n == 0 then start.data16 else (n - 1) % 0x100) && hits <= n
    && g.found == (start.found + hits) % 0x10000 && g.missed == (start.missed + (n - hits)) % 0x10000
    && g.retval == (start.retval + points) % 0x10000
  }

  /** The score of a round in terms of what it finds. */
  lemma PointScored(v: View, s: seq<Node>, idx: S16, data16: Word, k: nat, retval: Word, seen: Word, point: bool)
    requires |s| >= 2 && Within(s, v) && k == FirstMatch(v, s, idx, data16) && seen == Seen(v, s, k)
    requires point == Point(v, s, idx, data16)
    ensures NoneFound(v, s, idx, data16) <==> k == |s|
    ensures (if k < |s| then HitScore(retval, seen) else MissScore(retval, seen)) == (retval + if point then 1 else 0) % 0x10000
  {
    FirstMatchFinds(v, s, idx, data16);
    if k < |s| {
      HitBits(retval, seen);
    } else {
      MissBits(retval, seen);
    }
  }

  /** What one round adds. */
  lemma RoundScores(v: View, f: Finding, i: nat, data16: Word, none: bool, point: bool, g: Finding)
    requires |f.order| >= 2 && Within(f.order, v) && data16 == i % 0x100 && g == FindRound(v, f, i)
    requires none == NoneFound(v, f.order, f.idx, data16) && point == Point(v, f.order, f.idx, data16)
    ensures g.data16 == data16 && g.idx == NextIdx(f.idx)
    ensures g.found == (f.found + if none then 0 else 1) % 0x10000
    ensures g.missed == (f.missed + if none then 1 else 0) % 0x10000
    ensures g.retval == (f.retval + if point then 1 else 0) % 0x10000
  {
    var k := FirstMatch(v, f.order, f.idx, data16);
    var seen := Seen(v, f.order, k);
    LowByte(i);
    PointScored(v, f.order, f.idx, data16, k, f.retval, seen, point);
    if k < |f.order| {
      RoundFinds(v, f, i, k, seen, g);
    } else {
      RoundMisses(v, f, i, k, seen, g);
    }
  }

  lemma LowByte(i: nat)
    ensures ToU16(i) % 0x100 == i % 0x100
  {
  }

  lemma RoundFinds(v: View, f: Finding, i: nat, k: nat, seen: Word, g: Finding)
    requires |f.order| >= 2 && Within(f.order, v) && k == FirstMatch(v, f.order, f.idx, ToU16(i) % 0x100) < |f.order|
    requires seen == Seen(v, f.order, k) && g == FindRound(v, f, i)
    ensures g.data16 == ToU16(i) % 0x100 && g.idx == NextIdx(f.idx) && g.retval == HitScore(f.retval, seen)
    ensures g.found == ToU16(f.found + 1) && g.missed == f.missed
  {
  }

  lemma RoundMisses(v: View, f: Finding, i: nat, k: nat, seen: Word, g: Finding)
    requires |f.order| >= 2 && Within(f.order, v) && k == FirstMatch(v, f.order, f.idx, ToU16(i) % 0x100) == |f.order|
    requires seen == Seen(v, f.order, k) && g == FindRound(v, f, i)
    ensures g.data16 == ToU16(i) % 0x100 && g.idx == NextIdx(f.idx) && g.retval == MissScore(f.retval, seen)
    ensures g.found == f.found && g.missed == ToU16(f.missed + 1)
  {
  }

  lemma AddsOn(x: nat, a: nat, y: Word, d: nat, z: Word)
    requires y == (x + a) % 0x10000 && z == (y + d) % 0x10000
    ensures z == (x + (a + d)) % 0x10000
  {
  }

  lemma OneMoreRound(start: Finding, f: Finding, g: Finding, n: nat, hits: nat, points: nat, none: bool, point: bool)
    requires Accounted(start, f, n, hits, points) && g.data16 == n % 0x100 && g.idx == NextIdx(f.idx)
    requires g.found == (f.found + if none then 0 else 1) % 0x10000
    requires g.missed == (f.missed + if none then 1 else 0) % 0x10000
    requires g.retval == (f.retval + if point then 1 else 0) % 0x10000
    ensures Accounted(start, g, n + 1, hits + (if none then 0 else 1), points + (if point then 1 else 0)) == true
  {
    AddsOn(start.found, hits, f.found, if none then 0 else 1, g.found);
    AddsOn(start.missed, n - hits, f.missed, if none then 1 else 0, g.missed);
    AddsOn(start.retval, points, f.retval, if point then 1 else 0, g.retval);
  }

  /** One round more. */
  lemma RoundAccounted(v: View, start: Finding, n: nat, f: Finding, g: Finding, hits: nat, points: nat, none: bool, point: bool)
    requires |f.order| >= 2 && Within(f.order, v) && g == FindRound(v, f, n) && Accounted(start, f, n, hits, points) == true
    requires none == NoneFound(v, f.order, SoughtIdx(start.idx, n), n % 0x100)
    requires point == Point(v, f.order, SoughtIdx(start.idx, n), n % 0x100)
    ensures Accounted(start, g, n + 1, hits + (if none then 0 else 1), points + (if point then 1 else 0)) == true
  {
    RoundScores(v, f, n, n % 0x100, none, point, g);
    OneMoreRound(start, f, g, n, hits, points, none, point);
  }

  lemma CountsNext(v: View, start: Finding, n: nat, f: Finding, none: bool, point: bool)
    requires |start.order| >= 2 && Within(start.order, v) && f == FindRounds(v, start, n)
    requires none == NoneFound(v, f.order, SoughtIdx(start.idx, n), n % 0x100)
    requires point == Point(v, f.order, SoughtIdx(start.idx, n), n % 0x100)
    ensures Hits(v, start, n + 1) == Hits(v, start, n) + if none then 0 else 1
    ensures Points(v, start, n + 1) == Points(v, start, n) + if point then 1 else 0
  {
  }

  lemma NoRound(v: View, start: Finding)
    requires |start.order| >= 2 && Within(start.order, v)
    ensures FindRounds(v, start, 0) == start && Hits(v, start, 0) == Points(v, start, 0) == 0
    ensures Accounted(start, start, 0, 0, 0) == true
  {
  }

  /** f, hits and points are what n rounds come to. */
  ghost predicate CountedTo(v: View, start: Finding, n: nat, f: Finding, hits: nat, points: nat)
    requires |start.order| >= 2 && Within(start.order, v)
  {
    f == FindRounds(v, start, n) && hits == Hits(v, start, n) && points == Points(v, start, n)
  }

  lemma RoundStep(v: View, start: Finding, n: nat, f: Finding, hits: nat, points: nat)
    returns (g: Finding, hits': nat, points': nat)
    requires |start.order| >= 2 && Within(start.order, v) && CountedTo(v, start, n, f, hits, points) == true
    requires Accounted(start, f, n, hits, points) == true
    ensures CountedTo(v, start, n + 1, g, hits', points') == true && Accounted(start, g, n + 1, hits', points') == true
  {
    var none := NoneFound(v, f.order, SoughtIdx(start.idx, n), n % 0x100);
    var point := Point(v, f.order, SoughtIdx(start.idx, n), n % 0x100);
    hits', points' := hits + (if none then 0 else 1), points + (if point then 1 else 0);
    g := NextCounted(v, start, n, f, hits, points, none, point);
    RoundAccounted(v, start, n, f, g, hits, points, none, point);
  }

  lemma NextCounted(v: View, start: Finding, n: nat, f: Finding, hits: nat, points: nat, none: bool, point: bool)
    returns (g: Finding)
    requires |start.order| >= 2 && Within(start.order, v) && CountedTo(v, start, n, f, hits, points)
    requires none == NoneFound(v, f.order, SoughtIdx(start.idx, n), n % 0x100)
    requires point == Point(v, f.order, SoughtIdx(start.idx, n), n % 0x100)
    ensures |f.order| >= 2 && Within(f.order, v) && g == FindRound(v, f, n)
    ensures CountedTo(v, start, n + 1, g, hits + (if none then 0 else 1), points + (if point then 1 else 0)) == true
  {
    g := FindRound(v, f, n);
    CountsNext(v, start, n, f, none, point);
    FindRoundsNext(v, start, f, g, n);
  }

  /** The find loop: what it seeks after n rounds, how often it found something, and the points it scored. */
  lemma RoundsCount(v: View, start: Finding, n: nat)
    requires |start.order| >= 2 && Within(start.order, v)
    ensures Accounted(start, FindRounds(v, start, n), n, Hits(v, start, n), Points(v, start, n)) == true
  {
    NoRound(v, start);
    var f, hits, points := start, 0, 0;
    for i := 0 to n
      invariant CountedTo(v, start, i, f, hits, points) == true && Accounted(start, f, i, hits, points) == true
    {
      f, hits, points := RoundStep(v, start, i, f, hits, points);
    }
  }

  /** The score of n rounds: the points, four for each hit, and one less for each miss. */
  function Score(points: nat, hits: nat, n: nat): Word { (points + 4 * hits - (n - hits)) % 0x10000 }

  lemma TallyIs(start: Finding, g: Finding, n: nat, hits: nat, points: nat)
    requires Accounted(start, g, n, hits, points) == true && start.retval == start.found == start.missed == 0
    ensures Tally(g.retval, g.found, g.missed) == Score(points, hits, n)
  {
    ScoreIs(points, hits, n, g.retval, g.found, g.missed);
  }

  lemma ScoreIs(points: nat, hits: nat, n: nat, retval: Word, found: Word, missed: Word)
    requires hits <= n && retval == points % 0x10000 && found == hits % 0x10000 && missed == (n - hits) % 0x10000
    ensures (retval + found * 4 - missed) % 0x10000 == (points + 4 * hits - (n - hits)) % 0x10000
  {
    var p, h, m := points / 0x10000, hits / 0x10000, (n - hits) / 0x10000;
    assert points + 4 * hits - (n - hits) == retval + found * 4 - missed + 0x10000 * (p + 4 * h - m);
  }

  lemma SoughtAtLast(start: Finding, g: Finding, n: nat, hits: nat, points: nat)
    requires Accounted(start, g, n, hits, points)
    ensures g.idx == SoughtIdx(start.idx, n) && g.data16 == if n == 0 then start.data16 else (n - 1) % 0x100
  {
  }

  /** The score after the find loop. */
  function Tally(retval: Word, found: Word, missed: Word): Word { ToU16(retval + found * 4 - missed) }

  lemma FindRoundsNext(v: View, start: Finding, f: Finding, g: Finding, i: nat)
    requires |start.order| >= 2 && Within(start.order, v) && f == FindRounds(v, start, i)
    requires g == FindRound(v, f, i)
    ensures g == FindRounds(v, start, i + 1) && |g.order| >= 2
  {
  }

  /** How often the find loop runs. */
  function Rounds(findNum: S16): nat { if findNum > 0 then findNum else 0 }

  /** The find loop: list order, sought index and counters follow the rounds exactly. */
  method FindLoop(list0: Node, n: nat, finderIdx: S16, garbage: Word, ghost s: seq<Node>, ghost v: View)
    returns (list: Node, idx: S16, data16: Word, retval: Word, found: Word, missed: Word, ghost g: Finding)
    requires Chain(list0, s) == true && |s| >= 2 && Shows(v, s) == true
    modifies CellsOf(s)`next
    ensures g == FindRounds(v, Finding(s, finderIdx, garbage, 0, 0, 0), n)
    ensures g == Finding(g.order, idx, data16, retval, found, missed)
    ensures Chain(list, g.order) == true && Permuted(g.order, s) == true
    ensures Tallied(found, missed, n) == true
    ensures Within(s, v)
    ensures Accounted(Finding(s, finderIdx, garbage, 0, 0, 0), g, n, Hits(v, Finding(s, finderIdx, garbage, 0, 0, 0), n),
                      Points(v, Finding(s, finderIdx, garbage, 0, 0, 0), n)) == true
  {
    list, idx, data16, retval, found, missed := list0, finderIdx, garbage, 0, 0, 0;
    ghost var start := Finding(s, finderIdx, garbage, 0, 0, 0);
    g := start;
    for i := 0 to n
      invariant g == FindRounds(v, start, i) && g == Finding(g.order, idx, data16, retval, found, missed)
      invariant Chain(list, g.order) == true && Permuted(g.order, s) == true
      invariant Shows(v, g.order) == true && CellsOf(g.order) == CellsOf(s) && |g.order| >= 2
      invariant Tallied(found, missed, i) == true
    {
      ghost var f, found0, missed0 := g, found, missed;
      list, idx, data16, retval, found, missed, g := FindStep(list, i, idx, retval, found, missed, g, v);
      CountsOne(found0, missed0, i, found, missed);
      PermutedTransitive(g.order, f.order, s);
      FindRoundsNext(v, start, f, g, i);
    }
    RoundsCount(v, start, n);
  }

  lemma PermutedTransitive(s: seq<Node>, t: seq<Node>, u: seq<Node>)
    requires Permuted(s, t) && Permuted(t, u)
    ensures Permuted(s, u) == true
  {
  }

  lemma PermutedShows(v: View, s: seq<Node>, t: seq<Node>)
    requires Permuted(t, s) && Shows(v, s)
    ensures |t| == |s| && CellsOf(t) == CellsOf(s) && InfosOf(t) == InfosOf(s) && Shows(v, t) == true
  {
    SameCells(s, t);
    PermutedWithin(s, t, v);
    assert forall n :: n in CellsOf(s) <==> n in CellsOf(t);
    forall k | 0 <= k < |t| ensures v[t[k]] == ValueOf(t[k]) {
      assert t[k] in s;
      var l :| 0 <= l < |s| && s[l] == t[k];
    }
  }

  // ----- the checksums -----

  /** n rounds of the checksum over the same data word. */
  function CrcTimes(n: nat, d: Word, c: Word): Word {
    if n == 0 then c else CrcTimes(n - 1, d, Feed(LowBits(d, 16), c))
  }

  /** The checksum loops walk from `finder' to the end, but always add the data word of the head. */
  method CrcTail(list: Node, finder0: Node?, retval0: Word, ghost s: seq<Node>, ghost k: nat, ghost n: nat, ghost d: Word)
    returns (retval: Word)
    requires Chain(list, s) == true && k <= |s| && finder0 == At(s, k) && n == |s| - k && d == list.info.data16
    ensures retval == CrcTimes(n, d, retval0)
  {
    var finder := finder0;
    retval := retval0;
    ghost var l := k;
    while finder != null
      invariant k <= l <= |s| && finder == At(s, l)
      invariant CrcTimes(|s| - l, d, retval) == CrcTimes(n, d, retval0)
      decreases |s| - l
    {
      retval := Crcu16(list.info.data16, retval);
      assert s[l].next == At(s, l + 1);
      finder, l := finder.next, l + 1;
    }
  }

  /** The checksum between remove and undo: from the first match on, seen with the second payload gone. */
  ghost function MiddleCrc(w: View, t: seq<Node>, idx: S16, data16: Word, retval: Word): Word
    requires |t| >= 3 && Within(t, w)
  {
    var u := Without(t, 1);
    var k := FirstMatch(w, u, idx, data16);
    CrcTimes(if k < |u| then |u| - k else |u| - 1, w[t[0]].data, retval)
  }

  /** The search in the shortened list: the item at position 1 carries the payload of the unlinked cell. */
  method FindShort(list: Node, idx: S16, data16: Word, ghost t: seq<Node>, ghost w: View)
    returns (finder: Node?, ghost k: nat)
    requires |t| >= 3 && Within(t, w) && Chain(list, Without(t, 2)) == true
    requires ValueOf(t[1]) == w[t[2]] && forall l :: 0 <= l < |t| && l != 1 && l != 2 ==> ValueOf(t[l]) == w[t[l]]
    ensures k == FirstMatch(w, Without(t, 1), idx, data16) && k <= |t| - 1 && finder == At(Without(t, 2), k)
  {
    finder, k := Find(list, idx, data16, Without(t, 2));
    forall l | 0 <= l < |t| - 1 ensures ValueOf(Without(t, 2)[l]) == w[Without(t, 1)[l]] {
    }
    FirstMatchIs(w, Without(t, 1), idx, data16, k);
  }

  /** Which payload object hangs in which cell. */
  ghost function InfoMap(s: seq<Node>): map<Node, Info>
    reads s`info
  {
    map n | n in CellsOf(s) :: n.info
  }

  /** Remove the second item, checksum, undo: the list, its payload objects and their values end as they began. */
  method MiddlePhase(list: Node, idx: S16, data16: Word, retval0: Word, ghost t: seq<Node>, ghost w: View)
    returns (retval: Word)
    requires Chain(list, t) == true && |t| >= 3 && Shows(w, t) == true
    modifies CellsOf(t)
    ensures Chain(list, t) == true && InfoMap(t) == old(InfoMap(t)) && ViewOf(t) == old(ViewOf(t))
    ensures InfosOf(t) == old(InfosOf(t))
    ensures Within(t, w) && retval == MiddleCrc(w, t, idx, data16, retval0)
  {
    retval := RemoveAndUndo(list, idx, data16, retval0, t, w);
    assert forall n :: n in CellsOf(t) ==> n.info == old(n.info);
    assert forall o :: o in InfosOf(t) ==> o in old(InfosOf(t));
  }

  method RemoveAndUndo(list: Node, idx: S16, data16: Word, retval0: Word, ghost t: seq<Node>, ghost w: View)
    returns (retval: Word)
    requires Chain(list, t) == true && |t| >= 3 && Shows(w, t) == true
    modifies {t[1], t[2]}
    ensures Chain(list, t) == true && t[1].info == old(t[1].info) && t[2].info == old(t[2].info)
    ensures Within(t, w) && retval == MiddleCrc(w, t, idx, data16, retval0)
  {
    assert t[0].next == t[1] && t[1].next == t[2];
    var remover := Remove(list.next, list, t, 1);
    ghost var k;
    var finder;
    finder, k := FindShort(list, idx, data16, t, w);
    if finder == null {
      finder := list.next;
      k := 1;
    }
    retval := CrcTail(list, finder, retval0, Without(t, 2), k, |t| - 1 - k, w[t[0]].data);
    remover := UndoRemove(remover, list.next, list, t, 1);
  }

  // ----- the checksums as one message -----

  function Copies<T>(s: seq<T>, n: nat): (r: seq<T>)
    ensures |r| == n * |s|
  {
    if n == 0 then []
    else
      assert (n - 1) * |s| + |s| == n * |s|;
      s + Copies(s, n - 1)
  }

  lemma {:induction false} CrcTimesIs(n: nat, d: Word, c: Word)
    ensures CrcTimes(n, d, c) == Feed(Copies(LowBits(d, 16), n), c)
  {
    if n > 0 {
      CrcTimesIs(n - 1, d, Feed(LowBits(d, 16), c));
      RunAppend(Step, c, LowBits(d, 16), Copies(LowBits(d, 16), n - 1));
    }
  }

  /** How many cells the checksum between remove and undo walks over, given the order u without the second payload. */
  ghost predicate Walks(w: View, u: seq<Node>, idx: S16, data16: Word, n: nat) {
    || (n <= |u| && FoundAt(w, u, idx, data16, |u| - n))
    || (n + 1 == |u| && NoneFound(w, u, idx, data16))
  }

  lemma MiddleIs(w: View, t: seq<Node>, idx: S16, data16: Word, retval: Word, n: nat)
    requires |t| >= 3 && Within(t, w) && Walks(w, [t[0]] + t[2..], idx, data16, n)
    ensures MiddleCrc(w, t, idx, data16, retval) == Feed(Copies(LowBits(w[t[0]].data, 16), n), retval)
  {
    MiddleTimes(w, t, [t[0]] + t[2..], idx, data16, retval, n);
    CrcTimesIs(n, w[t[0]].data, retval);
  }

  lemma MiddleTimes(w: View, t: seq<Node>, u: seq<Node>, idx: S16, data16: Word, retval: Word, n: nat)
    requires |t| >= 3 && Within(t, w) && u == [t[0]] + t[2..] && Walks(w, u, idx, data16, n)
    ensures MiddleCrc(w, t, idx, data16, retval) == CrcTimes(n, w[t[0]].data, retval)
  {
    assert u == Without(t, 1);
    WalksFrom(w, u, idx, data16, n);
  }

  lemma WalksFrom(w: View, u: seq<Node>, idx: S16, data16: Word, n: nat)
    requires Within(u, w) && Walks(w, u, idx, data16, n)
    ensures var k := FirstMatch(w, u, idx, data16); n == if k < |u| then |u| - k else |u| - 1
  {
    FirstMatchFinds(w, u, idx, data16);
  }

  lemma BothChecksums(w: View, t: seq<Node>, idx: S16, data16: Word, score: Word, head: Word, n: nat)
    requires |t| >= 3 && Within(t, w) && Walks(w, [t[0]] + t[2..], idx, data16, n) == true
    ensures CrcTimes(|t| - 1, head, MiddleCrc(w, t, idx, data16, score))
         == Feed(Copies(LowBits(w[t[0]].data, 16), n) + Copies(LowBits(head, 16), |t| - 1), score)
  {
    MiddleIs(w, t, idx, data16, score, n);
    CrcTimesIs(|t| - 1, head, MiddleCrc(w, t, idx, data16, score));
    RunAppend(Step, score, Copies(LowBits(w[t[0]].data, 16), n), Copies(LowBits(head, 16), |t| - 1));
  }

  lemma ShuffledBy(finderIdx: S16, findNum: S16, garbage: Word, v: View, s: seq<Node>, g: Finding, t: seq<Node>, w: View)
    requires Shuffled(finderIdx, findNum, garbage, v, s, g, t, w)
    ensures |s| >= 2 && Within(s, v) && g == FindRounds(v, Finding(s, finderIdx, garbage, 0, 0, 0), Rounds(findNum))
  {
  }

  /** What the find loop leaves for the checksums. */
  lemma ShuffledScore(finderIdx: S16, findNum: S16, garbage: Word, v: View, s: seq<Node>, g: Finding, t: seq<Node>, w: View,
                      start: Finding, rounds: nat)
    requires Shuffled(finderIdx, findNum, garbage, v, s, g, t, w) == true
    requires start == Finding(s, finderIdx, garbage, 0, 0, 0) && rounds == if findNum > 0 then findNum else 0
    ensures |s| >= 2 && Within(s, v) && g.idx == SoughtIdx(finderIdx, rounds)
    ensures g.data16 == if rounds == 0 then garbage else (rounds - 1) % 0x100
    ensures Tally(g.retval, g.found, g.missed) == Score(Points(v, start, rounds), Hits(v, start, rounds), rounds)
  {
    ShuffledBy(finderIdx, findNum, garbage, v, s, g, t, w);
    RoundsCount(v, start, rounds);
    TallyIs(start, g, rounds, Hits(v, start, rounds), Points(v, start, rounds));
    SoughtAtLast(start, g, rounds, Hits(v, start, rounds), Points(v, start, rounds));
  }

  /**
   * The checksum of the benchmark: of the head's word once for each cell from the sought one on, and of the last head's
   * word once for each cell but the first, starting from the score of the find loop.
   */
  lemma BenchChecksum(finderIdx: S16, findNum: S16, garbage: Word, v: View, s: seq<Node>, g: Finding, t: seq<Node>, w: View,
                      start: Finding, rounds: nat, head: Word, n: nat)
    requires Shuffled(finderIdx, findNum, garbage, v, s, g, t, w) == true && |t| >= 3 && Within(t, w)
    requires start == Finding(s, finderIdx, garbage, 0, 0, 0) && rounds == if findNum > 0 then findNum else 0
    requires Walks(w, [t[0]] + t[2..], SoughtIdx(finderIdx, rounds), if rounds == 0 then garbage else (rounds - 1) % 0x100, n) == true
    ensures |s| >= 2 && Within(s, v)
    ensures CrcTimes(|t| - 1, head, MiddleCrc(w, t, g.idx, g.data16, Tally(g.retval, g.found, g.missed)))
         == Feed(Copies(LowBits(w[t[0]].data, 16), n) + Copies(LowBits(head, 16), |t| - 1),
                 Score(Points(v, start, rounds), Hits(v, start, rounds), rounds))
  {
    ShuffledScore(finderIdx, findNum, garbage, v, s, g, t, w, start, rounds);
    BothChecksums(w, t, g.idx, g.data16, Tally(g.retval, g.found, g.missed), head, n);
  }

  // ----- the benchmark -----

  ghost function RegeneratedView(v: View): View {
    map n | n in v :: Value(Regenerate(v[n].data), v[n].idx)
  }

  /** In the order of s, the home positions increase strictly. */
  ghost predicate Ascending(v: View, s: seq<Node>) {
    Within(s, v) && forall i, j :: 0 <= i < j < |s| ==> v[s[i]].idx < v[s[j]].idx
  }

  /** Every data word has equal high and low bytes. */
  ghost predicate BytesAgree(v: View) {
    forall n :: n in v ==> v[n].data == Regenerate(v[n].data)
  }

  lemma RegeneratedSame(v: View)
    ensures RegeneratedView(v) == v <==> BytesAgree(v)
  {
    if RegeneratedView(v) == v {
      forall n | n in v ensures v[n].data == Regenerate(v[n].data) {
        assert RegeneratedView(v)[n] == v[n];
      }
    }
  }

  lemma TailsAgree<T>(s: seq<T>, t: seq<T>)
    requires s != [] && t != [] && s[0] == t[0] && multiset(s) == multiset(t)
    ensures multiset(s[1..]) == multiset(t[1..])
  {
    assert s == [s[0]] + s[1..] && t == [t[0]] + t[1..];
    assert multiset(s[1..]) == multiset(s) - multiset{s[0]};
  }

  /** Of two cells only one can stand before the other. */
  lemma EarlierOneWay(t: seq<Node>, x: Node, y: Node)
    requires NoDup(t) && Earlier(t, x, y)
    ensures !Earlier(t, y, x)
  {
  }

  /** Two stable sortings of the same cells start with the same cell. */
  lemma HeadsAgree(v: View, t: seq<Node>, s: seq<Node>, u: seq<Node>)
    requires NoDup(t) && multiset(s) == multiset(u) && s != []
    requires SortedFrom(ByIndex, v, t, s) && SortedFrom(ByIndex, v, t, u)
    ensures u != [] && s[0] == u[0] && multiset(s[1..]) == multiset(u[1..])
  {
    assert s[0] in multiset(u) && |multiset(s)| == |multiset(u)|;
    assert u[0] in multiset(s);
    var a :| 0 <= a < |s| && s[a] == u[0];
    var b :| 0 <= b < |u| && u[b] == s[0];
    forall x, y | x in t && y in t && Earlier(t, x, y) ensures !Earlier(t, y, x) {
      EarlierOneWay(t, x, y);
    }
    TailsAgree(s, u);
  }

  /** There is only one stable sorting by the index. */
  lemma {:induction false} SortedUnique(v: View, t: seq<Node>, s: seq<Node>, u: seq<Node>)
    requires NoDup(t) && multiset(s) == multiset(u)
    requires SortedFrom(ByIndex, v, t, s) && SortedFrom(ByIndex, v, t, u)
    ensures s == u
  {
    assert |multiset(s)| == |multiset(u)|;
    if s != [] {
      HeadsAgree(v, t, s, u);
      SortedUnique(v, t, s[1..], u[1..]);
      assert s == [s[0]] + s[1..] && u == [u[0]] + u[1..];
    }
  }

  /** Comparing by data and then regenerating by index leaves every payload regenerated from its backup. */
  lemma RegeneratedAfterSorts(v: View, w: View, x: View, s: seq<Node>, t: seq<Node>)
    requires w == v || Evolves(ByData, false, v, w)
    requires Evolves(ByIndex, true, w, x) && AllSettled(ByIndex, true, t, x) && |t| >= 2
    ensures x == RegeneratedView(v)
  {
    assert x.Keys == v.Keys;
    forall n | n in v ensures x[n] == RegeneratedView(v)[n] {
      assert w == v || ValueEvolves(ByData, false, v[n], w[n]);
      assert ValueEvolves(ByIndex, true, w[n], x[n]) && Settled(ByIndex, true, x[n]);
    }
  }

  /** The state of the benchmark after its first two steps: the find loop and the optional sort by data. */
  ghost predicate Shuffled(finderIdx: S16, findNum: S16, garbage: Word, v: View, s: seq<Node>,
                           g: Finding, t: seq<Node>, w: View) {
    && |s| >= 2 && Within(s, v) && g == FindRounds(v, Finding(s, finderIdx, garbage, 0, 0, 0), Rounds(findNum))
    && Permuted(g.order, s) && Permuted(t, s)
    && DataSorted(finderIdx, v, w, g.order, t)
  }

  /** Cells, payload objects and values of two orders of the same cells. */
  lemma PermutedHeap(s: seq<Node>, t: seq<Node>)
    requires Permuted(t, s)
    ensures |t| == |s| && CellsOf(t) == CellsOf(s) && InfosOf(t) == InfosOf(s) && ViewOf(t) == ViewOf(s)
    ensures Shows(ViewOf(s), t) == true
  {
    SameCells(s, t);
    assert |multiset(s)| == |multiset(t)|;
    assert CellsOf(t) == CellsOf(s);
    assert Shows(ViewOf(s), s);
    PermutedShows(ViewOf(s), s, t);
  }

  /** Two orders of the same cells, seen with their payloads: nothing but the order differs. */
  ghost predicate SameHeap(s: seq<Node>, cells: set<Node>, infos: set<Info>, info: map<Node, Info>)
    reads s`info, InfosOf(s)
  {
    CellsOf(s) == cells && InfosOf(s) == infos && InfoMap(s) == info && Shows(ViewOf(s), s)
  }

  lemma PermutedSameHeap(s: seq<Node>, t: seq<Node>)
    requires Permuted(t, s)
    ensures SameHeap(t, CellsOf(s), InfosOf(s), InfoMap(s)) == true && |t| == |s| && ViewOf(t) == ViewOf(s)
  {
    PermutedHeap(s, t);
    PermutedHeap(t, t);
  }

  /** The optional sort by data takes the order s with payloads v to the order t with payloads w. */
  ghost predicate DataSorted(finderIdx: S16, v: View, w: View, s: seq<Node>, t: seq<Node>) {
    if finderIdx > 0 then Evolves(ByData, false, v, w) && SortedFrom(ByData, w, s, t) else t == s && w == v
  }

  /** A sort by data, which leaves every payload object in its cell. */
  method SortKeeping(list0: Node, res: Results, ghost s: seq<Node>) returns (list: Node, ghost t: seq<Node>)
    requires Chain(list0, s) == true && 3 <= |s| <= 0x8000_0000
    modifies CellsOf(s)`next, InfosOf(s), res
    ensures Chain(list, t) == true && Permuted(t, s) == true
    ensures Evolves(ByData, false, old(ViewOf(s)), ViewOf(s)) == true && SortedFrom(ByData, ViewOf(s), s, t) == true
    ensures InfosOf(s) == old(InfosOf(s)) && InfoMap(s) == old(InfoMap(s))
  {
    ghost var compared;
    list, t, compared := MergeSort(list0, ByData, res, s);
  }

  method SortByData(list0: Node, res: Results, ghost s: seq<Node>) returns (list: Node, ghost t: seq<Node>)
    requires Chain(list0, s) == true && 3 <= |s| <= 0x8000_0000
    modifies CellsOf(s)`next, InfosOf(s), res
    ensures Chain(list, t) == true && Permuted(t, s) == true && ViewOf(t) == ViewOf(s)
    ensures Evolves(ByData, false, old(ViewOf(s)), ViewOf(s)) == true && SortedFrom(ByData, ViewOf(s), s, t) == true
    ensures SameHeap(t, CellsOf(s), old(InfosOf(s)), old(InfoMap(s))) == true && |t| == |s|
  {
    list, t := SortKeeping(list0, res, s);
    PermutedSameHeap(s, t);
  }

  lemma SortedByData(finderIdx: S16, v: View, w: View, s: seq<Node>, t: seq<Node>)
    requires finderIdx > 0 && Evolves(ByData, false, v, w) == true && SortedFrom(ByData, w, s, t) == true
    ensures DataSorted(finderIdx, v, w, s, t) == true
  {
  }

  lemma NotSortedByData(finderIdx: S16, v: View, s: seq<Node>)
    requires finderIdx <= 0
    ensures DataSorted(finderIdx, v, v, s, s) == true && Permuted(s, s) == true
  {
  }

  /** `if (finder_idx>0)' sort by data. */
  method MaybeSort(list0: Node, res: Results, finderIdx: S16, ghost s: seq<Node>) returns (list: Node, ghost t: seq<Node>)
    requires Chain(list0, s) == true && 3 <= |s| <= 0x8000_0000
    modifies CellsOf(s)`next, InfosOf(s), res
    ensures Chain(list, t) == true && Permuted(t, s) == true && |t| == |s|
    ensures DataSorted(finderIdx, old(ViewOf(s)), ViewOf(t), s, t) == true
    ensures SameHeap(t, CellsOf(s), old(InfosOf(s)), old(InfoMap(s))) == true
  {
    if finderIdx > 0 {
      list, t := SortByData(list0, res, s);
      SortedByData(finderIdx, old(ViewOf(s)), ViewOf(s), s, t);
    } else {
      list, t := list0, s;
      NotSortedByData(finderIdx, ViewOf(s), s);
      PermutedSameHeap(s, s);
    }
  }

  /** The find loop and, if the index is positive, the sort by data. */
  method Shuffle(res: Results, finderIdx: S16, garbage: Word, ghost s: seq<Node>)
    returns (list: Node, idx: S16, data16: Word, retval: Word, ghost g: Finding, ghost t: seq<Node>)
    requires Chain(res.list, s) == true && 3 <= |s| <= 0x8000_0000
    modifies CellsOf(s)`next, InfosOf(s), res
    ensures Shuffled(finderIdx, res.seed3, garbage, old(ViewOf(s)), s, g, t, ViewOf(t)) == true
    ensures Chain(list, t) == true && idx == g.idx && data16 == g.data16 && retval == Tally(g.retval, g.found, g.missed)
    ensures SameHeap(t, CellsOf(s), old(InfosOf(s)), old(InfoMap(s))) == true && |t| == |s|
  {
    ghost var v := ViewOf(s);
    var found, missed;
    PermutedHeap(s, s);
    assert Within(s, v);
    list, idx, data16, retval, found, missed, g := FindLoop(res.list, Rounds(res.seed3), finderIdx, garbage, s, v);
    retval := Tally(retval, found, missed);
    PermutedSameHeap(s, g.order);
    assert ViewOf(g.order) == v;
    list, t := MaybeSort(list, res, finderIdx, g.order);
    PermutedTransitive(t, g.order, s);
    ShuffledIs(finderIdx, res.seed3, garbage, v, s, g, t, ViewOf(t));
  }

  lemma ShuffledIs(finderIdx: S16, findNum: S16, garbage: Word, v: View, s: seq<Node>, g: Finding, t: seq<Node>, w: View)
    requires |s| >= 2 && Within(s, v) == true && g == FindRounds(v, Finding(s, finderIdx, garbage, 0, 0, 0), Rounds(findNum))
    requires Permuted(g.order, s) == true && Permuted(t, s) == true && DataSorted(finderIdx, v, w, g.order, t) == true
    ensures Shuffled(finderIdx, findNum, garbage, v, s, g, t, w) == true
  {
  }

  lemma SortedHead(list: Node, t: seq<Node>, u: seq<Node>)
    requires Permuted(u, t) && |t| >= 3 && Chain(list, u) == true
    ensures |u| == |t| && list == u[0] && Chain(u[0], u) == true && u[0].next == At(u, 1)
    ensures u[0] in ViewOf(t) && ViewOf(t)[u[0]].data == u[0].info.data16
  {
    PermutedHeap(t, u);
    assert u[0] in CellsOf(u);
  }

  /** The order u of the cells of t after the sort by index: payload values v0 before and x after it. */
  ghost predicate InOrder(t: seq<Node>, u: seq<Node>, v0: View, x: View) {
    && u != [] && Permuted(u, t) && u[0] in x
    && SortedFrom(ByIndex, x, t, u) && AllSettled(ByIndex, true, t, x) && Evolves(ByIndex, true, v0, x)
  }

  /** The sort by index, which also regenerates the data. */
  method SortByIndex(list0: Node, ghost t: seq<Node>) returns (list: Node, ghost u: seq<Node>, ghost x: View)
    requires Chain(list0, t) == true && 3 <= |t| <= 0x8000_0000
    modifies CellsOf(t)`next, InfosOf(t)
    ensures |u| == |t| && Chain(list, u) == true && list == u[0] && list.next == At(u, 1) && ViewOf(t) == x
    ensures InOrder(t, u, old(ViewOf(t)), x) == true && x[u[0]].data == list.info.data16
  {
    ghost var compared;
    list, u, compared := MergeSort(list0, ByIndex, null, t);
    x := ViewOf(t);
    SortedHead(list, t, u);
  }

  /** The last checksum leaves the list alone. */
  method LastChecksum(list: Node, retval0: Word, ghost t: seq<Node>, ghost u: seq<Node>, ghost x: View) returns (retval: Word)
    requires |u| >= 1 && Chain(list, u) == true && list == u[0] && list.next == At(u, 1) && ViewOf(t) == x
    requires list in x && x[list].data == list.info.data16
    ensures Chain(list, u) == true && ViewOf(t) == x && retval == CrcTimes(|u| - 1, x[list].data, retval0)
  {
    retval := CrcTail(list, list.next, retval0, u, 1, |u| - 1, x[list].data);
  }

  /** The last step: sort by index, then checksum. */
  method Restore(list0: Node, retval0: Word, ghost t: seq<Node>) returns (retval: Word, ghost u: seq<Node>, ghost x: View)
    requires Chain(list0, t) == true && 3 <= |t| <= 0x8000_0000
    modifies CellsOf(t)`next, InfosOf(t)
    ensures InOrder(t, u, old(ViewOf(t)), x) == true && u != [] && Chain(u[0], u) == true && ViewOf(t) == x
    ensures |u| == |t| && u[0] in x && retval == CrcTimes(|u| - 1, x[u[0]].data, retval0)
  {
    var list;
    list, u, x := SortByIndex(list0, t);
    retval := LastChecksum(list, retval0, t, u, x);
  }

  /** Everything after the find loop and the sort by data. */
  method RemoveUndoRestore(list: Node, idx: S16, data16: Word, retval0: Word, ghost t: seq<Node>, ghost w: View)
    returns (retval: Word, ghost u: seq<Node>, ghost x: View)
    requires Chain(list, t) == true && 3 <= |t| <= 0x8000_0000 && Shows(w, t) == true && w == ViewOf(t)
    modifies CellsOf(t), InfosOf(t)
    ensures InfoMap(t) == old(InfoMap(t)) && Within(t, w) == true
    ensures InOrder(t, u, w, x) == true && u != [] && Chain(u[0], u) == true && ViewOf(t) == x && u[0] in x && |u| == |t|
    ensures retval == CrcTimes(|u| - 1, x[u[0]].data, MiddleCrc(w, t, idx, data16, retval0))
  {
    var middle := MiddlePhase(list, idx, data16, retval0, t, w);
    retval, u, x := Restore(list, middle, t);
  }

  /** The list is back in the order s exactly if s is the stable sorting of t; so it is if the indices increase. */
  ghost predicate Returned(v: View, s: seq<Node>, t: seq<Node>, u: seq<Node>) {
    && (u == s <==> SortedFrom(ByIndex, v, t, s))
    && (Ascending(v, s) ==> u == s)
  }

  /** Regenerating the data leaves the indices as they are. */
  lemma SameIndices(v: View, x: View, t: seq<Node>, u: seq<Node>)
    requires x == RegeneratedView(v) && SortedFrom(ByIndex, x, t, u)
    ensures SortedFrom(ByIndex, v, t, u)
  {
    forall i, j | 0 <= i < j < |u| ensures InPair(ByIndex, v, t, u[i], u[j]) {
      PairInOrder(x, t, u, i, j);
      assert x[u[i]].idx == v[u[i]].idx && x[u[j]].idx == v[u[j]].idx;
    }
  }

  lemma PairInOrder(x: View, t: seq<Node>, u: seq<Node>, i: nat, j: nat)
    requires SortedFrom(ByIndex, x, t, u) && i < j < |u|
    ensures u[i] in x && u[j] in x
    ensures x[u[i]].idx < x[u[j]].idx || (x[u[i]].idx == x[u[j]].idx && Earlier(t, u[i], u[j]))
  {
    var a, b := u[i], u[j];
    assert a in x && b in x;
  }

  lemma SortReturns(v: View, s: seq<Node>, t: seq<Node>, u: seq<Node>)
    requires NoDup(t) && multiset(u) == multiset(s) && SortedFrom(ByIndex, v, t, u)
    ensures Returned(v, s, t, u)
  {
    if Ascending(v, s) {
      assert SortedFrom(ByIndex, v, t, s);
    }
    if SortedFrom(ByIndex, v, t, s) {
      SortedUnique(v, t, s, u);
    }
  }

  /** All payload values come back regenerated, and the order as `Returned` says. */
  lemma BenchDone(v: View, w: View, x: View, s: seq<Node>, t: seq<Node>, u: seq<Node>)
    requires |s| >= 3 && NoDup(s) && Permuted(t, s) && Permuted(u, t)
    requires w == v || Evolves(ByData, false, v, w)
    requires Evolves(ByIndex, true, w, x) && AllSettled(ByIndex, true, t, x) && SortedFrom(ByIndex, x, t, u)
    ensures x == RegeneratedView(v) && Permuted(u, s) && Returned(v, s, t, u)
  {
    assert |multiset(s)| == |multiset(t)|;
    RegeneratedAfterSorts(v, w, x, s, t);
    NoDupTransfers(s, t);
    SameIndices(v, x, t, u);
    SortReturns(v, s, t, u);
  }

  lemma BenchEnds(finderIdx: S16, findNum: S16, garbage: Word, v: View, s: seq<Node>, g: Finding, t: seq<Node>, w: View,
                  u: seq<Node>, x: View)
    requires |s| >= 3 && NoDup(s) == true
    requires Shuffled(finderIdx, findNum, garbage, v, s, g, t, w) == true && InOrder(t, u, w, x) == true
    ensures x == RegeneratedView(v) && Permuted(u, s) == true && Permuted(t, s) == true && |t| == |s|
    ensures SortedFrom(ByIndex, x, t, u) == true && Returned(v, s, t, u) == true
  {
    assert |multiset(s)| == |multiset(t)|;
    BenchDone(v, w, x, s, t, u);
  }

  /**
   * `core_bench_list`. The payload objects end in their cells, with the data regenerated from its backup byte, and
   * the cells end as one chain in order of their indices. That chain is the original one exactly if any two cells
   * with equal indices are still in their original order before the last sort. The checksum is the one of the three steps.
   */
  method BenchList(res: Results, finderIdx: S16, garbage: Word, ghost s: seq<Node>)
    returns (retval: Word, ghost g: Finding, ghost t: seq<Node>, ghost w: View, ghost u: seq<Node>, ghost x: View)
    requires Chain(res.list, s) == true && 3 <= |s| <= 0x8000_0000
    modifies CellsOf(s), InfosOf(s), res
    ensures InfoMap(t) == old(InfoMap(s)) && x == RegeneratedView(old(ViewOf(s))) && ViewOf(t) == x
    ensures u != [] && Chain(u[0], u) == true && Permuted(u, s) == true && Permuted(t, s) == true
    ensures Returned(old(ViewOf(s)), s, t, u) == true && SortedFrom(ByIndex, x, t, u) == true
    ensures Shuffled(finderIdx, res.seed3, garbage, old(ViewOf(s)), s, g, t, w) == true
    ensures |t| >= 3 && Within(t, w) && u[0] in x
    ensures retval == CrcTimes(|u| - 1, x[u[0]].data,
                               MiddleCrc(w, t, g.idx, g.data16, Tally(g.retval, g.found, g.missed)))
  {
    ghost var v := ViewOf(s);
    assert NoDup(s) == true;
    var list, idx, data16;
    list, idx, data16, retval, g, t := Shuffle(res, finderIdx, garbage, s);
    w := ViewOf(t);
    assert SameHeap(t, CellsOf(s), old(InfosOf(s)), old(InfoMap(s)));
    retval, u, x := RemoveUndoRestore(list, idx, data16, retval, t, w);
    BenchEnds(finderIdx, res.seed3, garbage, v, s, g, t, w, u, x);
  }

  lemma ChainLinks(list: Node, s: seq<Node>, nx: Links)
    requires Chain(list, s) && nx.Keys == CellsOf(s) && LinkedBy(nx, s)
    ensures LinksOf(s) == nx
  {
    forall n | n in CellsOf(s) ensures n.next == nx[n] {
      var k :| 0 <= k < |s| && s[k] == n;
      assert s[k].next == At(s, k + 1);
    }
  }

  lemma LinksAre(list: Node, s: seq<Node>)
    requires Chain(list, s)
    ensures LinksOf(s).Keys == CellsOf(s) && LinkedBy(LinksOf(s), s)
  {
    forall k | 0 <= k < |s| ensures LinksOf(s)[s[k]] == At(s, k + 1) {
      assert s[k] in CellsOf(s);
    }
  }

  /** Where the cell at position m of a list of n ends after one round of the find loop that finds position k. */
  function PlaceAfter(n: nat, k: nat, m: nat): nat
    requires m < n
  {
    if k == n || k == 0 || m < k - 1 || m == n - 1 then n - 1 - m else if m == k - 1 then 1 else n - m
  }

  lemma PlacedAfter(s: seq<Node>, k: nat, m: nat)
    requires k <= |s| && m < |s|
    ensures |Reordered(s, k)| == |s| && PlaceAfter(|s|, k, m) < |s| && Reordered(s, k)[PlaceAfter(|s|, k, m)] == s[m]
  {
    if 0 < k < |s| {
      PlacedInMovedUp(Reversed(s), |s| - 1 - k, |s| - 1 - m);
    } else {
      JustReversed(s, k);
    }
  }

  lemma JustReversed(s: seq<Node>, k: nat)
    requires k == 0 || k == |s|
    ensures k <= |s| && Reordered(s, k) == Reversed(s)
  {
  }

  /** Where position i of the list goes when the cell after position k moves behind the head. */
  lemma PlacedInMovedUp(r: seq<Node>, k: nat, i: nat)
    requires k + 1 < |r| && i < |r|
    ensures var j := if i == 0 then 0 else if i == k + 1 then 1 else if i <= k then i + 1 else i;
            |MovedUp(r, k)| == |r| && MovedUp(r, k)[j] == r[i]
  {
    MovedUpAt(r, k);
  }

  /** A round turns every two cells around, but for the one before the match and those between it and the last. */
  lemma TurnedAround(s: seq<Node>, k: nat, i: nat, j: nat)
    requires NoDup(s) && k <= |s| && i < j < |s| && !(i + 1 == k <= j < |s| - 1)
    ensures !Earlier(Reordered(s, k), s[i], s[j])
  {
    PlacedAfter(s, k, i);
    PlacedAfter(s, k, j);
    ReorderedSame(s, k);
    NoDupTransfers(s, Reordered(s, k));
    assert Earlier(Reordered(s, k), s[j], s[i]);
    EarlierOneWay(Reordered(s, k), s[j], s[i]);
  }

  /** One search for the index 0 tells the lists in strictly increasing order from all others. */
  lemma OneRoundTells(v: View, s: seq<Node>, k: nat)
    requires NoDup(s) && Within(s, v) && k <= |s| && SortedFrom(ByIndex, v, Reordered(s, k), s)
    requires (k < |s| ==> v[s[k]].idx == 0) && forall l :: 0 <= l < k ==> v[s[l]].idx != 0
    ensures Ascending(v, s)
  {
    forall i, j | 0 <= i < j < |s| ensures v[s[i]].idx < v[s[j]].idx {
      PairTells(v, s, k, i, j);
    }
  }

  lemma PairTells(v: View, s: seq<Node>, k: nat, i: nat, j: nat)
    requires NoDup(s) && Within(s, v) && k <= |s| && i < j < |s| && SortedFrom(ByIndex, v, Reordered(s, k), s)
    requires (k < |s| ==> v[s[k]].idx == 0) && forall l :: 0 <= l < k ==> v[s[l]].idx != 0
    ensures v[s[i]].idx < v[s[j]].idx
  {
    if i + 1 == k <= j < |s| - 1 {
      PairInOrder(v, Reordered(s, k), s, i, k);
      if k < j {
        PairInOrder(v, Reordered(s, k), s, k, j);
      }
    } else {
      PairInOrder(v, Reordered(s, k), s, i, j);
      TurnedAround(s, k, i, j);
    }
  }

  lemma {:induction false} FirstMatchMatches(v: View, s: seq<Node>, idx: S16, data16: Word)
    requires Within(s, v)
    ensures var k := FirstMatch(v, s, idx, data16);
            (k < |s| ==> Matches(v[s[k]], idx, data16)) && forall l :: 0 <= l < k ==> !Matches(v[s[l]], idx, data16)
  {
    if s != [] && !Matches(v[s[0]], idx, data16) {
      FirstMatchMatches(v, s[1..], idx, data16);
    }
  }

  lemma RoundReorders(v: View, f: Finding, i: int, data16: Word)
    requires |f.order| >= 2 && Within(f.order, v) && data16 == ToU16(i) % 0x100
    ensures FindRound(v, f, i).order == Reordered(f.order, FirstMatch(v, f.order, f.idx, data16))
  {
  }

  lemma SingleRound(v: View, start: Finding)
    requires |start.order| >= 2 && Within(start.order, v)
    ensures FindRounds(v, start, 1).order == Reordered(start.order, FirstMatch(v, start.order, start.idx, 0))
  {
    assert FindRounds(v, start, 0) == start;
    RoundReorders(v, start, 0, 0);
  }

  /** The run that tells: a single search, for the index 0. */
  lemma TellingRun(garbage: Word, v: View, s: seq<Node>, g: Finding, t: seq<Node>, w: View, u: seq<Node>)
    requires NoDup(s) == true && Shuffled(0, 1, garbage, v, s, g, t, w) == true && Returned(v, s, t, u) == true
    ensures u == s <==> Ascending(v, s)
  {
    if u == s {
      SingleRound(v, Finding(s, 0, garbage, 0, 0, 0));
      FirstMatchMatches(v, s, 0, 0);
      assert t == g.order;
      OneRoundTells(v, s, FirstMatch(v, s, 0, 0));
    }
  }

  /** The links lead through the cells of s in order. */
  ghost predicate LinkedBy(nx: Links, s: seq<Node>) {
    && (forall i :: 0 <= i < |s| ==> s[i] in nx)
    && forall i {:trigger nx[s[i]]} :: 0 <= i < |s| ==> nx[s[i]] == At(s, i + 1)
  }

  /** The next pointers tell the list: two chains through the same cells by the same pointers are one. */
  lemma {:induction false} LinksTell(nx: Links, s: seq<Node>, u: seq<Node>, k: nat)
    requires NoDup(s) && NoDup(u) && multiset(u) == multiset(s) && k < |s|
    requires LinkedBy(nx, s) && LinkedBy(nx, u)
    ensures |u| == |s| && u[k] == s[k]
    decreases |s| - k
  {
    assert |multiset(u)| == |multiset(s)|;
    assert u[k] in multiset(s);
    var l :| 0 <= l < |s| && s[l] == u[k];
    assert nx[u[k]] == At(u, k + 1) && nx[s[l]] == At(s, l + 1);
    if k + 1 < |s| {
      LinksTell(nx, s, u, k + 1);
    }
    SamePlace(s, u, k, l);
  }

  /** Two places of a list that have the same cell behind them, or none, are the same. */
  lemma SamePlace(s: seq<Node>, u: seq<Node>, k: nat, l: nat)
    requires NoDup(s) && |u| == |s| && k < |s| && l < |s| && At(u, k + 1) == At(s, l + 1)
    requires k + 1 < |s| ==> u[k + 1] == s[k + 1]
    ensures l == k
  {
    if k + 1 < |s| {
      assert l + 1 < |s| && s[l + 1] == s[k + 1];
    }
  }

  lemma SameLinksSameList(nx: Links, s: seq<Node>, u: seq<Node>)
    requires NoDup(s) && NoDup(u) && multiset(u) == multiset(s)
    requires LinkedBy(nx, s) && LinkedBy(nx, u)
    ensures u == s
  {
    assert |multiset(u)| == |multiset(s)|;
    forall k | 0 <= k < |s| ensures u[k] == s[k] {
      LinksTell(nx, s, u, k);
    }
  }

  /** The links are the old ones exactly if the list is. */
  lemma SameLinks(s: seq<Node>, u: seq<Node>, nx: Links)
    requires NoDup(s) && s != [] && multiset(u) == multiset(s) && u != [] && Chain(u[0], u)
    requires nx.Keys == CellsOf(s) && LinkedBy(nx, s)
    ensures LinksOf(s) == nx <==> u == s
  {
    SameCells(s, u);
    if u == s {
      ChainLinks(s[0], s, nx);
    }
    if LinksOf(s) == nx {
      forall k | 0 <= k < |u| ensures u[k] in nx && nx[u[k]] == At(u, k + 1) {
        assert LinksOf(s)[u[k]] == u[k].next;
      }
      SameLinksSameList(nx, s, u);
    }
  }

  /**
   * "The list is back to its original state": payload pointers and indices are, and so is every data word exactly if
   * the two bytes of each agreed. The next pointers are back in every run exactly if the indices increase strictly:
   * then they always are, and otherwise the run that searches once, for the index 0, changes them.
   */
  method BenchListRestores(res: Results, finderIdx: S16, garbage: Word, ghost s: seq<Node>) returns (retval: Word)
    requires Chain(res.list, s) == true && 3 <= |s| <= 0x8000_0000
    modifies CellsOf(s), InfosOf(s), res
    ensures Ascending(old(ViewOf(s)), s) ==> LinksOf(s) == old(LinksOf(s)) && Chain(res.list, s)
    ensures finderIdx == 0 && res.seed3 == 1 && LinksOf(s) == old(LinksOf(s)) ==> Ascending(old(ViewOf(s)), s)
    ensures InfoMap(s) == old(InfoMap(s))
    ensures forall n :: n in s ==> n.info.idx == old(n.info.idx) && n.info.data16 == Regenerate(old(n.info.data16))
    ensures ViewOf(s) == old(ViewOf(s)) <==> BytesAgree(old(ViewOf(s)))
  {
    LinksAre(res.list, s);
    ghost var v, nx := ViewOf(s), LinksOf(s);
    ghost var g, t, w, u, x;
    retval, g, t, w, u, x := BenchList(res, finderIdx, garbage, s);
    SameLinks(s, u, nx);
    if finderIdx == 0 && res.seed3 == 1 {
      TellingRun(garbage, v, s, g, t, w, u);
    }
    PermutedSameHeap(s, t);
    RegeneratedSame(v);
    forall n | n in s ensures n.info.idx == old(n.info.idx) && n.info.data16 == Regenerate(old(n.info.data16)) {
      assert n in CellsOf(s) && ViewOf(s)[n] == RegeneratedView(v)[n];
    }
  }
}
