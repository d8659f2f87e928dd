/** `core_list_mergesort`: a bottom-up, in-place, stable mergesort of a linked list. */
module ListSort {
  import opened ListTypes

  // ----- chains of cells -----

  ghost predicate NoDup<T>(s: seq<T>) {
    forall i, j :: 0 <= i < j < |s| ==> s[i] != s[j]
  }

  ghost function At(s: seq<Node>, k: nat): Node? {
    if k < |s| then s[k] else null
  }

  /** The list that starts at `head` runs through exactly the cells of `s`, in order, and ends in NULL. */
  ghost predicate Chain(head: Node?, s: seq<Node>)
    reads s
  {
    && NoDup(s)
    && head == At(s, 0)
    && forall k {:trigger s[k].next} :: 0 <= k < |s| ==> s[k].next == At(s, k + 1)
  }

  // ----- the heap, seen as values -----

  type View = map<Node, Value>
  type Links = map<Node, Node?>

  /** How far a sort has come: what the payloads hold now, and which cells a comparison has been made of. */
  datatype Stage = Stage(view: View, compared: set<Node>)

  /** v and nx say what the payloads and the next pointers of the cells hold. */
  ghost predicate Sees(cells: set<Node>, infos: set<Info>, v: Stage, nx: Links)
    reads cells, infos
  {
    && v.view.Keys == nx.Keys == cells
    && forall n :: n in cells ==> n.info in infos && v.view[n] == Value(n.info.data16, n.info.idx) && nx[n] == n.next
  }

  ghost predicate Evolves(cmp: Comparator, regenerate: bool, v: View, w: View) {
    v.Keys == w.Keys && forall n :: n in v ==> ValueEvolves(cmp, regenerate, v[n], w[n])
  }

  /** The payloads evolve, and whoever has been compared stays so. */
  ghost predicate Progress(cmp: Comparator, regenerate: bool, v: Stage, w: Stage) {
    Evolves(cmp, regenerate, v.view, w.view) && v.compared <= w.compared
  }

  /** What a whole sort keeps fixed: the comparator, and each cell's place in the list it was given. */
  datatype Sorting = Sorting(cmp: Comparator, regenerate: bool, rank: map<Node, nat>)
  {
    /** x must come before y: a smaller key, or the same key and an earlier place. */
    ghost predicate Before(v: Stage, x: Node, y: Node)
      requires x in v.view && y in v.view && x in rank && y in rank
    {
      Key(cmp, v.view[x]) < Key(cmp, v.view[y]) || (Key(cmp, v.view[x]) == Key(cmp, v.view[y]) && rank[x] < rank[y])
    }

    ghost predicate Covers(s: seq<Node>, v: Stage) {
      forall k :: 0 <= k < |s| ==> s[k] in v.view && s[k] in rank
    }

    /** A comparison has been made of x, and its payload bears the mark of one. */
    ghost predicate Compared(v: Stage, x: Node)
      requires x in v.view
    {
      x in v.compared && Settled(cmp, regenerate, v.view[x])
    }

    /** The cells from a to e are the ones first found there, in order, all compared unless there is one only. */
    ghost predicate IsRun(s: seq<Node>, a: nat, e: nat, v: Stage)
      requires e <= |s| && Covers(s, v)
    {
      && (forall i :: a <= i < e ==> a <= rank[s[i]] < e)
      && (e - a >= 2 ==> forall i :: a <= i < e ==> Compared(v, s[i]))
      && (!cmp.Arbitrary? ==> forall i, j :: a <= i < j < e ==> Before(v, s[i], s[j]))
    }

    lemma RunEvolves(s: seq<Node>, a: nat, e: nat, v: Stage, w: Stage)
      requires e <= |s| && Covers(s, v) && Covers(s, w) && IsRun(s, a, e, v)
      requires Progress(cmp, regenerate, v, w)
      ensures IsRun(s, a, e, w)
    {
      if e - a >= 2 && !cmp.Arbitrary? {
        forall i | a <= i < e ensures w.view[s[i]] == v.view[s[i]] {
          assert Compared(v, s[i]);
        }
      }
    }

    /**
     * The merge of s[a..b] and s[b..c] has moved s[a..i] and s[b..j] to `out`:
     * what was moved is in order and comes before everything still to be moved.
     */
    ghost predicate Merging(s: seq<Node>, a: nat, b: nat, c: nat, i: nat, j: nat, out: seq<Node>, v: Stage)
      requires Covers(s, v) && Covers(out, v)
    {
      && a <= i <= b <= j <= c <= |s| && |out| == (i - a) + (j - b)
      && IsRun(s, a, b, v) && IsRun(s, b, c, v)
      && (forall l :: 0 <= l < |out| ==> a <= rank[out[l]] < c)
      && (c - a >= 2 ==> forall l :: 0 <= l < |out| ==> Compared(v, out[l]))
      && (b < c && out != [] ==> forall k :: a <= k < c ==> Compared(v, s[k]))
      && (!cmp.Arbitrary? ==>
            && (forall l, k :: 0 <= l < |out| && (i <= k < b || j <= k < c) ==> Before(v, out[l], s[k]))
            && (forall k, l :: 0 <= k < l < |out| ==> Before(v, out[k], out[l])))
    }

    /** A comparison of the two front cells keeps the merge in shape and leaves no cell of either run uncompared. */
    lemma MergingCompared(s: seq<Node>, a: nat, b: nat, c: nat, i: nat, j: nat, out: seq<Node>, v: Stage, w: Stage)
      requires Covers(s, v) && Covers(out, v) && Covers(s, w) && Covers(out, w)
      requires Merging(s, a, b, c, i, j, out, v) && i < b && j < c
      requires Progress(cmp, regenerate, v, w)
      requires Compared(w, s[i]) && Compared(w, s[j])
      ensures Merging(s, a, b, c, i, j, out, w)
      ensures forall k :: a <= k < c ==> Compared(w, s[k])
    {
      RunEvolves(s, a, b, v, w);
      RunEvolves(s, b, c, v, w);
      if out != [] {
        forall k | a <= k < c ensures Compared(w, s[k]) && (!cmp.Arbitrary? ==> w.view[s[k]] == v.view[s[k]]) {
          assert Compared(v, s[k]);
        }
        forall l | 0 <= l < |out|
          ensures Compared(w, out[l]) && (!cmp.Arbitrary? ==> w.view[out[l]] == v.view[out[l]])
        {
          assert Compared(v, out[l]);
        }
      } else {
        assert i == a && j == b;
      }
    }

    /** Moving the front cell of the first run: the second run is empty or its front is no smaller. */
    lemma MergingLeft(s: seq<Node>, a: nat, b: nat, c: nat, i: nat, j: nat, out: seq<Node>, v: Stage)
      requires Covers(s, v) && Covers(out, v) && Merging(s, a, b, c, i, j, out, v) && i < b
      requires !cmp.Arbitrary? && j < c ==> Key(cmp, v.view[s[i]]) <= Key(cmp, v.view[s[j]])
      requires b < c ==> forall k :: a <= k < c ==> Compared(v, s[k])
      ensures Covers(out + [s[i]], v) && Merging(s, a, b, c, i + 1, j, out + [s[i]], v)
    {
      if !cmp.Arbitrary? {
        forall k | i + 1 <= k < b || j <= k < c ensures Before(v, s[i], s[k]) {
          if j <= k < c {
            assert j == k || Before(v, s[j], s[k]);
          }
        }
      }
    }

    /** Moving the front cell of the second run: the first run is empty or its front is larger. */
    lemma MergingRight(s: seq<Node>, a: nat, b: nat, c: nat, i: nat, j: nat, out: seq<Node>, v: Stage)
      requires Covers(s, v) && Covers(out, v) && Merging(s, a, b, c, i, j, out, v) && j < c
      requires !cmp.Arbitrary? && i < b ==> Key(cmp, v.view[s[j]]) < Key(cmp, v.view[s[i]])
      requires b < c ==> forall k :: a <= k < c ==> Compared(v, s[k])
      ensures Covers(out + [s[j]], v) && Merging(s, a, b, c, i, j + 1, out + [s[j]], v)
    {
      if !cmp.Arbitrary? {
        forall k | i <= k < b || j + 1 <= k < c ensures Before(v, s[j], s[k]) {
          if i <= k < b {
            assert i == k || Before(v, s[i], s[k]);
          }
        }
      }
    }

    /** From position a on, s consists of runs of length w (the last may be shorter). */
    ghost predicate RunsFrom(s: seq<Node>, a: nat, w: nat, v: Stage)
      requires w > 0 && Covers(s, v)
      decreases |s| - a
    {
      a >= |s| || (IsRun(s, a, if a + w <= |s| then a + w else |s|, v) && RunsFrom(s, a + w, w, v))
    }

    /** Up to position e, s consists of runs of length exactly w. */
    ghost predicate RunsUpTo(s: seq<Node>, e: nat, w: nat, v: Stage)
      requires w > 0 && e <= |s| && Covers(s, v)
    {
      e == 0 || (e >= w && IsRun(s, e - w, e, v) && RunsUpTo(s, e - w, w, v))
    }

    lemma {:induction false} RunsFromEvolve(s: seq<Node>, a: nat, w: nat, v: Stage, v': Stage)
      requires w > 0 && Covers(s, v) && Covers(s, v') && Progress(cmp, regenerate, v, v')
      requires RunsFrom(s, a, w, v)
      ensures RunsFrom(s, a, w, v')
      decreases |s| - a
    {
      if a < |s| {
        RunEvolves(s, a, if a + w <= |s| then a + w else |s|, v, v');
        RunsFromEvolve(s, a + w, w, v, v');
      }
    }

    /** Runs survive later comparisons and later additions behind them. */
    lemma {:induction false} RunsUpToEvolve(s: seq<Node>, t: seq<Node>, e: nat, w: nat, v: Stage, v': Stage)
      requires w > 0 && e <= |s| && Covers(s, v) && Covers(s + t, v') && Progress(cmp, regenerate, v, v')
      requires RunsUpTo(s, e, w, v)
      ensures RunsUpTo(s + t, e, w, v')
    {
      if e > 0 {
        assert Covers(s, v') by {
          assert forall k :: 0 <= k < |s| ==> (s + t)[k] == s[k];
        }
        RunEvolves(s, e - w, e, v, v');
        RunExtends(s, t, e - w, e, v');
        RunsUpToEvolve(s, t, e - w, w, v, v');
      }
    }

    lemma RunExtends(s: seq<Node>, t: seq<Node>, a: nat, e: nat, v: Stage)
      requires e <= |s| && Covers(s, v) && Covers(s + t, v) && IsRun(s, a, e, v)
      ensures IsRun(s + t, a, e, v)
    {
      assert forall k :: 0 <= k < |s| ==> (s + t)[k] == s[k];
    }

    /** Runs up to e and runs from e on are runs throughout. */
    lemma {:induction false} RunsJoin(s: seq<Node>, e: nat, w: nat, v: Stage)
      requires w > 0 && e <= |s| && Covers(s, v) && RunsUpTo(s, e, w, v) && RunsFrom(s, e, w, v)
      ensures RunsFrom(s, 0, w, v)
    {
      if e > 0 {
        RunsJoin(s, e - w, w, v);
      }
    }

    /** The merged cells, put behind the output of the earlier merges, form a run. */
    lemma MergingDone(s: seq<Node>, a: nat, b: nat, c: nat, out0: seq<Node>, out: seq<Node>, v: Stage)
      requires Covers(s, v) && Covers(out0, v) && Covers(out, v) && a < b && |out0| == a
      requires Merging(s, a, b, c, b, c, out, v)
      ensures Covers(out0 + out, v) && IsRun(out0 + out, a, c, v)
    {
      var t := out0 + out;
      forall k | a <= k < c ensures t[k] == out[k - a] {
      }
    }
  }

  lemma ProgressReflexive(cmp: Comparator, regenerate: bool, v: Stage)
    ensures Progress(cmp, regenerate, v, v)
  {
  }

  lemma ProgressTransitive(cmp: Comparator, regenerate: bool, u: Stage, v: Stage, w: Stage)
    requires Progress(cmp, regenerate, u, v) && Progress(cmp, regenerate, v, w)
    ensures Progress(cmp, regenerate, u, w)
  {
    forall n | n in u.view ensures ValueEvolves(cmp, regenerate, u.view[n], w.view[n]) {
      assert ValueEvolves(cmp, regenerate, u.view[n], v.view[n]) && ValueEvolves(cmp, regenerate, v.view[n], w.view[n]);
    }
  }

  /** A comparison of the payloads of two cells: it alone adds to the compared cells, and it adds these two. */
  method CompareCells(cmp: Comparator, p: Node, q: Node, res: Results?,
                      ghost cells: set<Node>, ghost infos: set<Info>, ghost v: Stage, ghost nx: Links)
    returns (r: int, ghost w: Stage)
    requires p in cells && q in cells && Sees(cells, infos, v, nx)
    requires cmp.ByData? ==> res != null
    modifies infos, res
    ensures Sees(cells, infos, w, nx) == true && Progress(cmp, res == null, v, w) == true && p in w.view && q in w.view
    ensures !cmp.Arbitrary? ==>
              && (r <= 0 <==> Key(cmp, w.view[p]) <= Key(cmp, w.view[q]))
              && Settled(cmp, res == null, w.view[p]) && Settled(cmp, res == null, w.view[q])
    ensures w.compared == v.compared + {p, q}
  {
    r := Compare(cmp, p.info, q.info, res);
    w := Stage(map n | n in cells :: Value(n.info.data16, n.info.idx), v.compared + {p, q});
    forall n | n in cells ensures ValueEvolves(cmp, res == null, v.view[n], w.view[n]) == true {
      if n.info != p.info && n.info != q.info {
        assert w.view[n] == v.view[n];
      }
    }
  }

  // ----- one merge -----

  /** `out` holds exactly the cells s[..i] and s[b..j]. */
  ghost predicate Placed(s: seq<Node>, b: nat, i: nat, j: nat, out: seq<Node>) {
    && i <= b <= j <= |s| && NoDup(s)
    && multiset(out) == multiset(s[..i]) + multiset(s[b..j])
  }

  lemma PlacedTake(s: seq<Node>, b: nat, i: nat, j: nat, out: seq<Node>)
    requires Placed(s, b, i, j, out)
    ensures i < b ==> Placed(s, b, i + 1, j, out + [s[i]]) == true
    ensures j < |s| ==> Placed(s, b, i, j + 1, out + [s[j]]) == true
  {
    if i < b {
      assert s[..i + 1] == s[..i] + [s[i]];
    }
    if j < |s| {
      assert s[b..j + 1] == s[b..j] + [s[j]];
    }
  }

  lemma {:induction false} NoDupCount<T>(t: seq<T>, x: T)
    requires NoDup(t)
    ensures multiset(t)[x] <= 1
  {
    if t != [] {
      var n := |t| - 1;
      assert t == t[..n] + [t[n]];
      NoDupCount(t[..n], x);
      assert t[n] !in t[..n];
    }
  }

  /** A rearrangement of distinct cells is again a list of distinct cells. */
  lemma NoDupTransfers<T>(t: seq<T>, u: seq<T>)
    requires NoDup(t) && multiset(t) == multiset(u)
    ensures NoDup(u)
  {
    forall i, j | 0 <= i < j < |u| ensures u[i] != u[j] {
      assert u == u[..j] + u[j..];
      assert u[i] in u[..j] && u[j] in u[j..];
      assert multiset(u) == multiset(u[..j]) + multiset(u[j..]);
      NoDupCount(t, u[i]);
    }
  }

  lemma PlacedDistinct(s: seq<Node>, b: nat, i: nat, j: nat, out: seq<Node>)
    requires Placed(s, b, i, j, out)
    ensures NoDup(out)
  {
    assert multiset(s[..i] + s[b..j]) == multiset(out);
    NoDupTransfers(s[..i] + s[b..j], out);
  }

  lemma PlacedLast(s: seq<Node>, b: nat, i: nat, j: nat, out: seq<Node>)
    requires Placed(s, b, i, j, out)
    ensures NoDup(out)
    ensures out != [] ==> out[|out| - 1] in s
    ensures out != [] ==> forall k :: 0 <= k < |s| && (i <= k < b || j <= k) ==> s[k] != out[|out| - 1]
  {
    PlacedDistinct(s, b, i, j, out);
    if out != [] {
      assert multiset(out)[out[|out| - 1]] > 0;
      if out[|out| - 1] in multiset(s[..i]) {
        assert out[|out| - 1] in s[..i];
      } else {
        assert out[|out| - 1] in s[b..j];
      }
    }
  }

  /** The pointers during a merge: the output so far, and the cells still to be placed. */
  ghost predicate Wired(nx: Links, s: seq<Node>, b: nat, i: nat, j: nat, out: seq<Node>, list: Node?, last: Node?) {
    && list == At(out, 0) && last == (if |out| == 0 then null else out[|out| - 1])
    && (forall k :: 0 <= k < |out| ==> out[k] in nx) && (forall k :: 0 <= k < |s| ==> s[k] in nx)
    && (forall k :: 0 <= k < |out| - 1 ==> nx[out[k]] == out[k + 1])
    && (forall k {:trigger nx[s[k]]} :: 0 <= k < |s| && (i <= k < b || j <= k) ==> nx[s[k]] == At(s, k + 1))
  }

  lemma WiredTake(nx: Links, s: seq<Node>, b: nat, i: nat, j: nat, out: seq<Node>, list: Node?, last: Node?,
                  e: Node, i': nat, j': nat)
    requires Wired(nx, s, b, i, j, out, list, last) && i <= i' && j <= j' && NoDup(out) && e in nx
    requires last != null ==> forall k :: 0 <= k < |s| && (i <= k < b || j <= k) ==> s[k] != last
    ensures var nx' := if last == null then nx else nx[last := e];
            Wired(nx', s, b, i', j', out + [e], if last == null then e else list, e) == true
  {
  }

  /** What one merge is about: the cells and payloads in play, the runs s[a..b] and s[b..c], the output before it. */
  datatype Merger = Merger(st: Sorting, cells: set<Node>, infos: set<Info>, s: seq<Node>, a: nat, b: nat, c: nat,
                           out0: seq<Node>)
  {
    ghost predicate Valid(cmp: Comparator, res: Results?) {
      && st.cmp == cmp && st.regenerate == (res == null) && (cmp.ByData? ==> res != null)
      && a < b <= c <= |s| && forall k :: 0 <= k < |s| ==> s[k] in cells
    }

    /** Both runs have length w, as far as the list reaches. */
    predicate Standard(w: nat) {
      b == (if a + w <= |s| then a + w else |s|) && c == (if b + w <= |s| then b + w else |s|)
    }

    /** The cells s[a..i] and s[b..j] are in order in `out`. */
    ghost predicate Ordered(i: nat, j: nat, out: seq<Node>, v: Stage) {
      st.Covers(s, v) && st.Covers(out, v) && st.Merging(s, a, b, c, i, j, out, v)
    }

    /** The list from `list` to `tail` holds s[..i] and s[b..j]; the remaining cells are linked as they were. */
    ghost predicate Linked(i: nat, j: nat, out: seq<Node>, list: Node?, tail: Node?, nx: Links) {
      Placed(s, b, i, j, out0 + out) && Wired(nx, s, b, i, j, out0 + out, list, tail)
    }

    /** The scalars of the loop agree with i and j. */
    ghost predicate Counted(i: nat, j: nat, p: Node?, q: Node?, psize: int, qsize: int) {
      && psize == b - i && (0 <= i < b <= |s| ==> p == s[i])
      && q == At(s, j) && qsize >= 0 && (qsize > 0 && q != null <==> j < c)
    }
  }

  /** e is the front cell of the first run or of the second; i' and j' count it as moved. */
  ghost predicate Chosen(m: Merger, left: bool, i: nat, j: nat, e: Node, i': nat, j': nat) {
    if left then i < m.b <= |m.s| && e == m.s[i] && i' == i + 1 && j' == j
    else j < m.c <= |m.s| && e == m.s[j] && i' == i && j' == j + 1
  }

  /** The front cell of the first run, or of the second, may be moved: it is there, and no larger than the other. */
  ghost predicate Takes(m: Merger, left: bool, i: nat, j: nat, out: seq<Node>, v: Stage) {
    && m.Ordered(i, j, out, v) && m.c <= |m.s| && (if left then i < m.b else j < m.c)
    && (m.b < m.c ==> forall k :: m.a <= k < m.c ==> m.st.Compared(v, m.s[k]))
    && (!m.st.cmp.Arbitrary? && i < m.b && j < m.c ==>
          if left then Key(m.st.cmp, v.view[m.s[i]]) <= Key(m.st.cmp, v.view[m.s[j]])
          else Key(m.st.cmp, v.view[m.s[j]]) < Key(m.st.cmp, v.view[m.s[i]]))
  }

  /** One run is used up: the other one is next. */
  lemma TakesRest(m: Merger, i: nat, j: nat, p: Node?, q: Node?, psize: int, qsize: int, out: seq<Node>, v: Stage)
    requires m.Ordered(i, j, out, v) == true && m.Counted(i, j, p, q, psize, qsize) == true && m.a < m.b
    requires psize > 0 || (qsize > 0 && q != null)
    ensures psize == 0 ==> Takes(m, false, i, j, out, v) == true
    ensures psize != 0 && (qsize == 0 || q == null) ==> Takes(m, true, i, j, out, v) == true
  {
  }

  /** Both runs have a front cell, and these have been compared. */
  lemma TakesSmaller(m: Merger, i: nat, j: nat, p: Node, q: Node, r: int, out: seq<Node>, v: Stage, w: Stage)
    requires m.Ordered(i, j, out, v) == true && i < m.b && j < m.c && p == m.s[i] && q == m.s[j]
    requires Progress(m.st.cmp, m.st.regenerate, v, w) == true && p in w.view && q in w.view
    requires m.st.Compared(w, p) && m.st.Compared(w, q)
    requires !m.st.cmp.Arbitrary? ==> (r <= 0 <==> Key(m.st.cmp, w.view[p]) <= Key(m.st.cmp, w.view[q]))
    ensures Takes(m, r <= 0, i, j, out, w) == true
  {
    m.st.MergingCompared(m.s, m.a, m.b, m.c, i, j, out, v, w);
  }

  /** Moving the front cell of the chosen run keeps the merge in order. */
  lemma OrderedTake(m: Merger, left: bool, i: nat, j: nat, out: seq<Node>, v: Stage) returns (e: Node, i': nat, j': nat)
    requires Takes(m, left, i, j, out, v) == true
    ensures Chosen(m, left, i, j, e, i', j') && m.Ordered(i', j', out + [e], v) == true
  {
    if left {
      e, i', j' := m.s[i], i + 1, j;
      m.st.MergingLeft(m.s, m.a, m.b, m.c, i, j, out, v);
    } else {
      e, i', j' := m.s[j], i, j + 1;
      m.st.MergingRight(m.s, m.a, m.b, m.c, i, j, out, v);
    }
  }

  /** Both runs have a front cell: compare them. */
  method CompareFronts(cmp: Comparator, p: Node, q: Node, res: Results?, ghost m: Merger, ghost i: nat, ghost j: nat,
                       ghost out: seq<Node>, ghost v0: Stage, ghost v: Stage, ghost nx: Links)
    returns (left: bool, ghost w: Stage)
    requires m.Valid(cmp, res) == true && m.Ordered(i, j, out, v) == true
    requires i < m.b && j < m.c <= |m.s| && p == m.s[i] && q == m.s[j] && p in m.cells && q in m.cells
    requires Progress(cmp, res == null, v0, v) == true && Sees(m.cells, m.infos, v, nx) == true
    modifies m.infos, res
    ensures Takes(m, left, i, j, out, w) == true
    ensures Progress(cmp, res == null, v0, w) == true && Sees(m.cells, m.infos, w, nx) == true
  {
    var r;
    r, w := CompareCells(cmp, p, q, res, m.cells, m.infos, v, nx);
    TakesSmaller(m, i, j, p, q, r, out, v, w);
    ProgressTransitive(cmp, res == null, v0, v, w);
    left := r <= 0;
  }

  /**
   * Decide whether the next cell of a merge comes from the first run (at p) or the second (at q);
   * moving that cell keeps the merge in order.
   */
  method TakesLeft(cmp: Comparator, p: Node?, q: Node?, psize: int, qsize: int, res: Results?,
                   ghost m: Merger, ghost i: nat, ghost j: nat, ghost out: seq<Node>,
                   ghost v0: Stage, ghost v: Stage, ghost nx: Links)
    returns (left: bool, ghost w: Stage, ghost i': nat, ghost j': nat, ghost e: Node)
    requires m.Valid(cmp, res) && m.Ordered(i, j, out, v) == true && m.Counted(i, j, p, q, psize, qsize)
    requires psize > 0 || (qsize > 0 && q != null)
    requires Progress(cmp, res == null, v0, v) == true && Sees(m.cells, m.infos, v, nx) == true
    modifies m.infos, res
    ensures Chosen(m, left, i, j, e, i', j') && m.Ordered(i', j', out + [e], w) == true
    ensures Progress(cmp, res == null, v0, w) == true && Sees(m.cells, m.infos, w, nx) == true
  {
    w := v;
    TakesRest(m, i, j, p, q, psize, qsize, out, v);
    if psize == 0 {
      left := false;
    } else if qsize == 0 || q == null {
      left := true;
    } else {
      left, w := CompareFronts(cmp, p, q, res, m, i, j, out, v0, v, nx);
    }
    e, i', j' := OrderedTake(m, left, i, j, out, w);
  }

  lemma LinkedTake(m: Merger, left: bool, i: nat, j: nat, e: Node, i': nat, j': nat,
                   t: seq<Node>, list: Node?, tail: Node?, nx: Links)
    requires Placed(m.s, m.b, i, j, t) && Wired(nx, m.s, m.b, i, j, t, list, tail) && Chosen(m, left, i, j, e, i', j')
    ensures tail == null || tail in nx
    ensures Placed(m.s, m.b, i', j', t + [e]) == true
    ensures Wired(if tail == null then nx else nx[tail := e], m.s, m.b, i', j', t + [e], if tail == null then e else list, e) == true
  {
    PlacedTake(m.s, m.b, i, j, t);
    PlacedLast(m.s, m.b, i, j, t);
    WiredTake(nx, m.s, m.b, i, j, t, list, tail, e, i', j');
  }

  method SetNext(tail: Node, e: Node?, ghost cells: set<Node>, ghost infos: set<Info>, ghost v: Stage, ghost nx: Links)
    returns (ghost nx': Links)
    requires Sees(cells, infos, v, nx) && tail in cells
    modifies tail`next
    ensures nx' == nx[tail := e] && Sees(cells, infos, v, nx')
  {
    tail.next := e;
    nx' := nx[tail := e];
  }

  /** Link one more cell to the end of the output. */
  method Link(list0: Node?, tail: Node?, e: Node, ghost left: bool,
              ghost m: Merger, ghost i: nat, ghost j: nat, ghost i': nat, ghost j': nat,
              ghost out: seq<Node>, ghost v: Stage, ghost nx: Links)
    returns (list: Node?, ghost nx': Links)
    requires m.Linked(i, j, out, list0, tail, nx) == true && Sees(m.cells, m.infos, v, nx) == true
    requires Chosen(m, left, i, j, e, i', j')
    modifies m.cells`next
    ensures m.Linked(i', j', out + [e], list, e, nx') == true
    ensures Sees(m.cells, m.infos, v, nx') == true
  {
    LinkedTake(m, left, i, j, e, i', j', m.out0 + out, list0, tail, nx);
    assert m.out0 + (out + [e]) == (m.out0 + out) + [e];
    if tail != null {
      list := list0;
      nx' := SetNext(tail, e, m.cells, m.infos, v, nx);
    } else {
      list := e;
      nx' := nx;
    }
  }

  /** Stepping past the chosen cell follows its link, which still leads to its old successor. */
  lemma CountedNext(m: Merger, left: bool, i: nat, j: nat, e: Node, i': nat, j': nat,
                    p: Node?, q: Node?, psize: int, qsize: int, out: seq<Node>, list: Node?, tail: Node?, nx: Links)
    requires m.Counted(i, j, p, q, psize, qsize) && Chosen(m, left, i, j, e, i', j') && i <= m.b <= j <= m.c <= |m.s|
    requires m.Linked(i, j, out, list, tail, nx)
    ensures e in nx && (if left then p == e && psize > 0 else q == e && qsize > 0)
    ensures j' <= m.c && (qsize - (j' - j) > 0 && At(m.s, j') != null <==> j' < m.c) ==>
              m.Counted(i', j', if left then nx[e] else p, if left then q else nx[e],
                        if left then psize - 1 else psize, if left then qsize else qsize - 1)
  {
  }

  /** The inner loop of the sort: merge the runs s[a..b] and s[b..c] onto the end of the output. */
  method Merge(p0: Node, q0: Node?, psize0: nat, insize: nat, list0: Node?, tail0: Node?,
               cmp: Comparator, res: Results?, ghost m: Merger, ghost v0: Stage, ghost nx0: Links)
    returns (list: Node?, tail: Node?, q: Node?, ghost out: seq<Node>, ghost v: Stage, ghost nx: Links)
    requires m.Valid(cmp, res) == true && m.c == (if m.b + insize <= |m.s| then m.b + insize else |m.s|)
    requires m.Counted(m.a, m.b, p0, q0, psize0, insize) == true
    requires m.Linked(m.a, m.b, [], list0, tail0, nx0) == true && m.Ordered(m.a, m.b, [], v0) == true
    requires Sees(m.cells, m.infos, v0, nx0) == true
    modifies m.cells`next, m.infos, res
    ensures m.Linked(m.b, m.c, out, list, tail, nx) == true && m.Ordered(m.b, m.c, out, v) == true && q == At(m.s, m.c)
    ensures Sees(m.cells, m.infos, v, nx) == true && Progress(cmp, res == null, v0, v) == true
  {
    var p: Node? := p0;
    var psize: int, qsize: int := psize0, insize;
    list, tail, q := list0, tail0, q0;
    out, v, nx := [], v0, nx0;
    ghost var i: nat, j: nat := m.a, m.b;
    ProgressReflexive(cmp, res == null, v0);
    while psize > 0 || (qsize > 0 && q != null)
      invariant i <= m.b <= j <= m.c && qsize == insize - (j - m.b)
      invariant m.Counted(i, j, p, q, psize, qsize) == true
      invariant m.Linked(i, j, out, list, tail, nx) == true
      invariant m.Ordered(i, j, out, v) == true
      invariant Sees(m.cells, m.infos, v, nx) == true
      invariant Progress(cmp, res == null, v0, v) == true
      decreases psize + (m.c - j)
    {
      var left;
      ghost var i', j', next;
      left, v, i', j', next := TakesLeft(cmp, p, q, psize, qsize, res, m, i, j, out, v0, v, nx);
      CountedNext(m, left, i, j, next, i', j', p, q, psize, qsize, out, list, tail, nx);
      var e: Node;
      if left {
        e := p;
        assert nx[e] == e.next;
        p := p.next;
        psize := psize - 1;
      } else {
        e := q;
        assert nx[e] == e.next;
        q := q.next;
        qsize := qsize - 1;
      }
      assert m.Counted(i', j', p, q, psize, qsize);
      list, nx := Link(list, tail, e, left, m, i, j, i', j', out, v, nx);
      tail, out, i, j := e, out + [e], i', j';
    }
    assert i == m.b && j == m.c;
    i, j := m.b, m.c;
  }

  // ----- one pass -----

  /** Between merges: the merged list holds s[..a], and s[a..] is still linked as it was. */
  ghost predicate Between(nx: Links, s: seq<Node>, a: nat, out: seq<Node>, list: Node?, tail: Node?) {
    Placed(s, a, a, a, out) && Wired(nx, s, a, a, a, out, list, tail)
  }

  lemma BeforeMerge(m: Merger, nx: Links, list: Node?, tail: Node?)
    requires Between(nx, m.s, m.a, m.out0, list, tail) && m.a <= m.b <= |m.s|
    ensures m.Linked(m.a, m.b, [], list, tail, nx)
  {
    assert m.out0 + [] == m.out0;
    assert m.s[m.a..m.a] == [] && m.s[m.b..m.b] == [];
  }

  lemma AfterMerge(m: Merger, nx: Links, out: seq<Node>, list: Node?, tail: Node?)
    requires m.Linked(m.b, m.c, out, list, tail, nx) && m.b <= m.c <= |m.s|
    ensures Between(nx, m.s, m.c, m.out0 + out, list, tail)
  {
    assert m.s[..m.b] + m.s[m.b..m.c] == m.s[..m.c];
    assert m.s[m.c..m.c] == [];
  }

  /** A merge of two runs of length w turns the runs of length 2w before it into runs of length 2w up to its end. */
  lemma MergeMakesRun(m: Merger, w: nat, out: seq<Node>, v: Stage, v': Stage)
    requires 0 < w && |m.out0| == m.a < m.b && m.b <= m.c <= |m.s| && m.c <= m.a + 2 * w
    requires m.st.Covers(m.s, v) && m.st.Covers(m.out0, v)
    requires m.st.RunsUpTo(m.out0, m.a, 2 * w, v) && Progress(m.st.cmp, m.st.regenerate, v, v')
    requires m.Ordered(m.b, m.c, out, v')
    ensures |m.out0 + out| == m.c && m.st.Covers(m.out0 + out, v')
    ensures m.c == m.a + 2 * w ==> m.st.RunsUpTo(m.out0 + out, m.c, 2 * w, v')
    ensures m.c == |m.s| ==> m.st.RunsFrom(m.out0 + out, 0, 2 * w, v')
  {
    m.st.MergingDone(m.s, m.a, m.b, m.c, m.out0, out, v');
    m.st.RunsUpToEvolve(m.out0, out, m.a, 2 * w, v, v');
    if m.c == |m.s| {
      m.st.RunsJoin(m.out0 + out, m.a, 2 * w, v');
    }
  }

  /** The second run starts behind at most `insize` cells of the first, which are counted on the way. */
  method Advance(p: Node, insize: nat, ghost s: seq<Node>, ghost a: nat, ghost cells: set<Node>, ghost infos: set<Info>,
                 ghost v: Stage, ghost nx: Links, ghost out: seq<Node>, ghost list: Node?, ghost tail: Node?)
    returns (q: Node?, psize: nat)
    requires insize > 0 && a < |s| && p == s[a]
    requires Sees(cells, infos, v, nx) == true && Between(nx, s, a, out, list, tail) == true
    ensures psize == (if a + insize <= |s| then insize else |s| - a) && q == At(s, a + psize)
    ensures Sees(cells, infos, v, nx) == true
  {
    q, psize := p, 0;
    for i := 0 to insize
      invariant psize == i && a + i <= |s| && q == At(s, a + i) && (i < insize ==> q != null)
    {
      psize := psize + 1;
      assert s[a + i] in nx && nx[q] == q.next;
      q := q.next;
      if q == null {
        break;
      }
    }
  }

  lemma SecondRunCounted(m: Merger, p: Node, q: Node?, psize: nat, w: nat)
    requires w > 0 && m.a < |m.s| && m.Standard(w) && p == m.s[m.a]
    requires psize == (if m.a + w <= |m.s| then w else |m.s| - m.a) && q == At(m.s, m.a + psize)
    ensures m.Counted(m.a, m.b, p, q, psize, w) == true
  {
  }

  /** Between merges: `out` consists of runs of length 2w and s[a..] of runs of length w. */
  ghost predicate Swept(st: Sorting, s: seq<Node>, a: nat, out: seq<Node>, w: nat, v: Stage)
    requires w > 0
  {
    && |out| == a <= |s| && st.Covers(s, v) && st.Covers(out, v) && st.RunsFrom(s, a, w, v)
    && (a < |s| ==> st.RunsUpTo(out, a, 2 * w, v))
    && (a == |s| ==> st.RunsFrom(out, 0, 2 * w, v))
  }

  lemma SweptStart(m: Merger, w: nat, v: Stage)
    requires w > 0 && m.a < |m.s| && Swept(m.st, m.s, m.a, m.out0, w, v)
    requires m.Standard(w)
    ensures m.Ordered(m.a, m.b, [], v)
  {
    if m.b < |m.s| {
      assert m.st.RunsFrom(m.s, m.b, w, v);
    }
  }

  lemma SweptNext(m: Merger, w: nat, out: seq<Node>, v: Stage, v': Stage)
    requires w > 0 && m.a < |m.s| && Swept(m.st, m.s, m.a, m.out0, w, v)
    requires m.Standard(w)
    requires m.Ordered(m.b, m.c, out, v') && Progress(m.st.cmp, m.st.regenerate, v, v')
    ensures Swept(m.st, m.s, m.c, m.out0 + out, w, v')
  {
    MergeMakesRun(m, w, out, v, v');
    m.st.RunsFromEvolve(m.s, m.a, w, v, v');
    if m.b < |m.s| {
      assert m.st.RunsFrom(m.s, m.b, w, v');
    }
  }

  /** Ending the merged list with NULL leaves one chain through all its cells. */
  lemma SweepDone(nx: Links, s: seq<Node>, out: seq<Node>, list: Node?, tail: Node?)
    requires s != [] && Between(nx, s, |s|, out, list, tail)
    ensures tail != null && tail in s && tail in nx && multiset(out) == multiset(s) && list == At(out, 0)
    ensures Between(nx[tail := null], out, 0, [], null, null)
  {
    assert s[..|s|] == s && s[|s|..|s|] == [];
    assert |multiset(out)| == |multiset(s)|;
    PlacedLast(s, |s|, |s|, |s|, out);
  }

  /** `tail->next = NULL` at the end of a pass has a cell to write to exactly if the list was not empty. */
  lemma TailOfPass(nx: Links, s: seq<Node>, out: seq<Node>, list: Node?, tail: Node?)
    requires Between(nx, s, |s|, out, list, tail)
    ensures tail == null <==> s == []
  {
    if s != [] {
      SweepDone(nx, s, out, list, tail);
    } else {
      assert multiset(out) == multiset{};
    }
  }

  /** n merges of run pairs have covered the first a of `total` cells. */
  ghost predicate MergesDone(n: int, a: nat, w: nat, total: nat) {
    && a <= total && 0 <= n <= a && (n == 0 <==> a == 0) && (n == 1 <==> 0 < a <= 2 * w)
    && (a == 0 || a == total || a >= 2 * w)
  }

  lemma MergesNext(n: int, m: Merger, w: nat)
    requires w > 0 && m.a < |m.s| && m.Standard(w) && MergesDone(n, m.a, w, |m.s|)
    ensures m.a < m.c && MergesDone(n + 1, m.c, w, |m.s|)
  {
  }

  /** The merge that starts at position a. */
  lemma NextMerger(st: Sorting, cells: set<Node>, infos: set<Info>, s: seq<Node>, a: nat, out: seq<Node>, w: nat, n: int,
                   cmp: Comparator, res: Results?)
    returns (m: Merger)
    requires st.cmp == cmp && st.regenerate == (res == null) && (cmp.ByData? ==> res != null)
    requires w > 0 && a < |s| && MergesDone(n, a, w, |s|) == true && forall k :: 0 <= k < |s| ==> s[k] in cells
    ensures m == Merger(st, cells, infos, s, a, m.b, m.c, out) && m.Standard(w) == true && m.Valid(cmp, res) == true
    ensures a < m.c <= |s| && MergesDone(n + 1, m.c, w, |s|) == true
  {
    var b: nat := if a + w <= |s| then a + w else |s|;
    m := Merger(st, cells, infos, s, a, b, if b + w <= |s| then b + w else |s|, out);
    MergesNext(n, m, w);
  }

  lemma MergeStarts(m: Merger, w: nat, v: Stage, nx: Links, list: Node?, tail: Node?)
    requires w > 0 && m.a < |m.s| && m.Standard(w)
    requires Between(nx, m.s, m.a, m.out0, list, tail) == true && Swept(m.st, m.s, m.a, m.out0, w, v) == true
    ensures m.Linked(m.a, m.b, [], list, tail, nx) == true && m.Ordered(m.a, m.b, [], v) == true
  {
    BeforeMerge(m, nx, list, tail);
    SweptStart(m, w, v);
  }

  lemma MergeEnds(m: Merger, cmp: Comparator, res: Results?, w: nat, out: seq<Node>, v: Stage, v': Stage,
                  nx: Links, list: Node?, tail: Node?)
    requires w > 0 && m.a < |m.s| && m.Standard(w) && m.Valid(cmp, res) == true
    requires Swept(m.st, m.s, m.a, m.out0, w, v) == true
    requires m.Linked(m.b, m.c, out, list, tail, nx) == true && m.Ordered(m.b, m.c, out, v') == true
    requires Progress(cmp, res == null, v, v') == true
    ensures Between(nx, m.s, m.c, m.out0 + out, list, tail) == true
    ensures Swept(m.st, m.s, m.c, m.out0 + out, w, v') == true
  {
    AfterMerge(m, nx, out, list, tail);
    SweptNext(m, w, out, v, v');
  }

  /** The search for the second run: everything is then in place for the merge. */
  method FindSecond(p: Node, insize: nat, ghost m: Merger, ghost v: Stage, ghost nx: Links, ghost list: Node?,
                    ghost tail: Node?)
    returns (q: Node?, psize: nat)
    requires insize > 0 && m.a < |m.s| && p == m.s[m.a] && m.Standard(insize) == true
    requires Between(nx, m.s, m.a, m.out0, list, tail) == true && Swept(m.st, m.s, m.a, m.out0, insize, v) == true
    requires Sees(m.cells, m.infos, v, nx) == true
    ensures m.Counted(m.a, m.b, p, q, psize, insize) == true && Sees(m.cells, m.infos, v, nx) == true
    ensures m.Linked(m.a, m.b, [], list, tail, nx) == true && m.Ordered(m.a, m.b, [], v) == true
  {
    q, psize := Advance(p, insize, m.s, m.a, m.cells, m.infos, v, nx, m.out0, list, tail);
    SecondRunCounted(m, p, q, psize, insize);
    MergeStarts(m, insize, v, nx, list, tail);
  }

  /** One merge of a pass: find the second run, then merge it with the one at p. */
  method MergeNext(p: Node, insize: nat, list0: Node?, tail0: Node?, cmp: Comparator, res: Results?,
                   ghost m: Merger, ghost v: Stage, ghost nx: Links)
    returns (list: Node?, tail: Node?, q: Node?, ghost out: seq<Node>, ghost v': Stage, ghost nx': Links)
    requires insize > 0 && m.a < |m.s| && p == m.s[m.a] && m.Valid(cmp, res) == true
    requires m.Standard(insize) == true
    requires Between(nx, m.s, m.a, m.out0, list0, tail0) == true && Swept(m.st, m.s, m.a, m.out0, insize, v) == true
    requires Sees(m.cells, m.infos, v, nx) == true
    modifies m.cells`next, m.infos, res
    ensures q == At(m.s, m.c)
    ensures Between(nx', m.s, m.c, out, list, tail) == true && Swept(m.st, m.s, m.c, out, insize, v') == true
    ensures Sees(m.cells, m.infos, v', nx') == true && Progress(cmp, res == null, v, v') == true
  {
    var psize;
    q, psize := FindSecond(p, insize, m, v, nx, list0, tail0);
    list, tail, q, out, v', nx' := Merge(p, q, psize, insize, list0, tail0, cmp, res, m, v, nx);
    MergeEnds(m, cmp, res, insize, out, v, v', nx', list, tail);
    out := m.out0 + out;
  }

  /** The end of a pass: `tail->next = NULL`. */
  method Terminate(tail: Node?, ghost cells: set<Node>, ghost infos: set<Info>, ghost s: seq<Node>, ghost out: seq<Node>,
                   ghost v: Stage, ghost nx: Links, ghost list: Node?)
    returns (ghost nx': Links)
    requires s != [] && Between(nx, s, |s|, out, list, tail) == true && Sees(cells, infos, v, nx) == true
    requires forall k :: 0 <= k < |s| ==> s[k] in cells
    modifies cells`next
    ensures multiset(out) == multiset(s) && list == At(out, 0)
    ensures Between(nx', out, 0, [], null, null) == true && Sees(cells, infos, v, nx') == true
  {
    SweepDone(nx, s, out, list, tail);
    nx' := SetNext(tail, null, cells, infos, v, nx);
  }

  /** One pass of the sort: merge neighbouring runs of length `insize' and count the merges. */
  method Pass(list0: Node, insize: nat, cmp: Comparator, res: Results?,
              ghost st: Sorting, ghost cells: set<Node>, ghost infos: set<Info>, ghost s: seq<Node>, ghost v0: Stage,
              ghost nx0: Links)
    returns (list: Node?, nmerges: nat, ghost out: seq<Node>, ghost v: Stage, ghost nx: Links)
    requires st.cmp == cmp && st.regenerate == (res == null) && (cmp.ByData? ==> res != null)
    requires insize > 0 && s != [] && list0 == s[0] && (forall k :: 0 <= k < |s| ==> s[k] in cells)
    requires Between(nx0, s, 0, [], null, null) == true && Swept(st, s, 0, [], insize, v0) == true
    requires Sees(cells, infos, v0, nx0) == true
    modifies cells`next, infos, res
    ensures list == At(out, 0) && Between(nx, out, 0, [], null, null) == true && multiset(out) == multiset(s)
    ensures Swept(st, s, |s|, out, insize, v) == true
    ensures Sees(cells, infos, v, nx) == true && Progress(cmp, res == null, v0, v) == true
    ensures MergesDone(nmerges, |s|, insize, |s|) == true
  {
    var p: Node? := list0;
    list := null;
    var tail: Node? := null;
    nmerges := 0;
    ghost var a: nat := 0;
    out, v, nx := [], v0, nx0;
    ProgressReflexive(cmp, res == null, v0);
    while p != null
      invariant p == At(s, a) && MergesDone(nmerges, a, insize, |s|) == true
      invariant Between(nx, s, a, out, list, tail) == true && Swept(st, s, a, out, insize, v) == true
      invariant Sees(cells, infos, v, nx) == true && Progress(cmp, res == null, v0, v) == true
      decreases |s| - a
    {
      ghost var m := NextMerger(st, cells, infos, s, a, out, insize, nmerges, cmp, res);
      nmerges := nmerges + 1;
      ghost var v';
      list, tail, p, out, v', nx := MergeNext(p, insize, list, tail, cmp, res, m, v, nx);
      ProgressTransitive(cmp, res == null, v0, v, v');
      a, v := m.c, v';
    }
    assert a == |s|;
    a := |s|;
    nx := Terminate(tail, cells, infos, s, out, v, nx, list);
  }

  // ----- the sort -----

  ghost function ValueOf(n: Node): Value
    reads n`info, n.info
  {
    Value(n.info.data16, n.info.idx)
  }

  /** x stands before y in s. */
  ghost predicate Earlier(s: seq<Node>, x: Node, y: Node) {
    exists a, b :: 0 <= a < b < |s| && s[a] == x && s[b] == y
  }

  /** x may stand before y: its key is smaller, or the same and x came before y in s. */
  ghost predicate InPair(cmp: Comparator, v: View, s: seq<Node>, x: Node, y: Node) {
    && x in v && y in v
    && (Key(cmp, v[x]) < Key(cmp, v[y]) || (Key(cmp, v[x]) == Key(cmp, v[y]) && Earlier(s, x, y)))
  }

  /**
   * With payloads v, t is in order of keys, and cells with equal keys keep the order they had in s
   * (nothing is said of a comparator that does not order by a key).
   */
  ghost predicate SortedFrom(cmp: Comparator, v: View, s: seq<Node>, t: seq<Node>) {
    !cmp.Arbitrary? ==>
      forall i, j :: 0 <= i < j < |t| ==> InPair(cmp, v, s, t[i], t[j])
  }

  /** If there are two cells or more, a comparison has been made of every one of them. */
  ghost predicate AllCompared(s: seq<Node>, compared: set<Node>) {
    |s| >= 2 ==> forall n :: n in s ==> n in compared
  }

  /** If there are two cells or more, every payload bears the mark of a comparison. */
  ghost predicate AllSettled(cmp: Comparator, regenerate: bool, s: seq<Node>, v: View) {
    |s| >= 2 ==> forall n :: n in v ==> Settled(cmp, regenerate, v[n])
  }

  ghost function IndexOf(s: seq<Node>, n: Node): (i: nat)
    requires n in s
    ensures i < |s| && s[i] == n
  {
    var i :| 0 <= i < |s| && s[i] == n;
    i
  }

  /** The first list consists of runs of one cell each, ranked by their place. */
  lemma {:induction false} RunsAtStart(st: Sorting, s: seq<Node>, a: nat, v: Stage)
    requires NoDup(s) && st.Covers(s, v) && forall k :: 0 <= k < |s| ==> st.rank[s[k]] == k
    ensures st.RunsFrom(s, a, 1, v)
    decreases |s| - a
  {
    if a < |s| {
      RunsAtStart(st, s, a + 1, v);
    }
  }

  lemma SweptAll(st: Sorting, s: seq<Node>, t: seq<Node>, w: nat, v: Stage)
    requires w > 0 && Swept(st, s, |s|, t, w, v)
    ensures Swept(st, t, 0, [], 2 * w, v)
    ensures 0 < |s| <= 2 * w ==> |t| == |s| && st.Covers(t, v) && st.IsRun(t, 0, |t|, v)
  {
  }

  lemma ChainBetween(nx: Links, s: seq<Node>)
    requires NoDup(s) && forall k :: 0 <= k < |s| ==> s[k] in nx && nx[s[k]] == At(s, k + 1)
    ensures Between(nx, s, 0, [], null, null)
  {
    assert s[..0] == [] && s[0..0] == [];
  }

  lemma RunIsSorted(st: Sorting, s: seq<Node>, t: seq<Node>, v: Stage)
    requires st.Covers(t, v) && st.IsRun(t, 0, |t|, v) && |t| == |s|
    requires forall k :: 0 <= k < |s| ==> s[k] in st.rank && st.rank[s[k]] == k
    requires (forall n :: n in t <==> n in s) && (forall n :: n in v.view ==> n in t)
    ensures SortedFrom(st.cmp, v.view, s, t)
    ensures AllCompared(s, v.compared) && AllSettled(st.cmp, st.regenerate, s, v.view)
  {
    if |s| >= 2 {
      forall n | n in t ensures st.Compared(v, n) {
        var i :| 0 <= i < |t| && t[i] == n;
      }
    }
    if !st.cmp.Arbitrary? {
      forall i, j | 0 <= i < j < |t|
        ensures Key(st.cmp, v.view[t[i]]) < Key(st.cmp, v.view[t[j]]) ||
                (Key(st.cmp, v.view[t[i]]) == Key(st.cmp, v.view[t[j]]) && Earlier(s, t[i], t[j]))
      {
        assert st.Before(v, t[i], t[j]);
        assert t[i] in s && t[j] in s;
        var a :| 0 <= a < |s| && s[a] == t[i];
        var b :| 0 <= b < |s| && s[b] == t[j];
        assert st.rank[s[a]] == a && st.rank[s[b]] == b;
      }
    }
  }

  /** What the loop over the passes keeps: `t` is a rearrangement of s, in runs of length `insize`. */
  ghost predicate Passing(st: Sorting, cells: set<Node>, s: seq<Node>, t: seq<Node>, insize: nat, v: Stage, nx: Links) {
    && insize > 0 && t != [] && multiset(t) == multiset(s) && (forall k :: 0 <= k < |t| ==> t[k] in cells)
    && Between(nx, t, 0, [], null, null) && Swept(st, t, 0, [], insize, v)
  }

  lemma PassingStart(st: Sorting, cells: set<Node>, s: seq<Node>, v: Stage, nx: Links)
    requires s != [] && NoDup(s) && st.Covers(s, v) && (forall k :: 0 <= k < |s| ==> st.rank[s[k]] == k && s[k] in cells)
    requires forall k :: 0 <= k < |s| ==> s[k] in nx && nx[s[k]] == At(s, k + 1)
    ensures Passing(st, cells, s, s, 1, v, nx)
  {
    ChainBetween(nx, s);
    RunsAtStart(st, s, 0, v);
  }

  lemma PassingNext(st: Sorting, cells: set<Node>, s: seq<Node>, t: seq<Node>, u: seq<Node>, w: nat, v: Stage, v': Stage,
                    nx: Links, nx': Links)
    requires Passing(st, cells, s, t, w, v, nx) && Swept(st, t, |t|, u, w, v')
    requires Between(nx', u, 0, [], null, null) && multiset(u) == multiset(t)
    ensures Passing(st, cells, s, u, 2 * w, v', nx')
  {
    SweptAll(st, t, u, w, v');
    forall k | 0 <= k < |u| ensures u[k] in cells {
      assert u[k] in multiset(t);
    }
  }

  lemma PassingEnd(st: Sorting, cells: set<Node>, s: seq<Node>, t: seq<Node>, w: nat, v: Stage, nx: Links)
    requires Passing(st, cells, s, t, w, v, nx) && |t| <= w
    ensures |t| == |s| && NoDup(t) && st.Covers(t, v) && st.IsRun(t, 0, |t|, v)
    ensures forall k :: 0 <= k < |t| ==> t[k] in nx && nx[t[k]] == At(t, k + 1)
  {
    assert |multiset(t)| == |multiset(s)|;
  }

  /** The loop over the passes: runs double in length until one remains. */
  method Passes(list0: Node, cmp: Comparator, res: Results?,
                ghost st: Sorting, ghost cells: set<Node>, ghost infos: set<Info>, ghost s: seq<Node>,
                ghost v0: Stage, ghost nx0: Links)
    returns (list: Node, ghost t: seq<Node>, ghost v: Stage, ghost nx: Links, ghost w: nat)
    requires st.cmp == cmp && st.regenerate == (res == null) && (cmp.ByData? ==> res != null)
    requires s != [] && |s| <= 0x8000_0000 && list0 == s[0] && Passing(st, cells, s, s, 1, v0, nx0) == true
    requires Sees(cells, infos, v0, nx0) == true
    modifies cells`next, infos, res
    ensures Passing(st, cells, s, t, w, v, nx) == true && |t| <= w && list == t[0]
    ensures Sees(cells, infos, v, nx) == true && Progress(cmp, res == null, v0, v) == true
  {
    var insize: nat := 1;
    list := list0;
    t, v, nx := s, v0, nx0;
    ProgressReflexive(cmp, res == null, v0);
    while true
      invariant |t| == |s| && list == t[0] && (insize == 1 || insize < |s|)
      invariant Passing(st, cells, s, t, insize, v, nx) == true
      invariant Sees(cells, infos, v, nx) == true && Progress(cmp, res == null, v0, v) == true
      decreases |s| - insize
    {
      ghost var t', v', nx';
      var head, nmerges;
      head, nmerges, t', v', nx' := Pass(list, insize, cmp, res, st, cells, infos, t, v, nx);
      PassingNext(st, cells, s, t, t', insize, v, v', nx, nx');
      ProgressTransitive(cmp, res == null, v0, v, v');
      assert |t'| == |t| by {
        assert |multiset(t')| == |multiset(t)|;
      }
      list, t, v, nx, w := head, t', v', nx', 2 * insize;
      if nmerges <= 1 {
        return;
      }
      assert insize * 2 < 0x8000_0000;  // no overflow of ee_s32
      insize := insize * 2;
    }
  }

  ghost function CellsOf(s: seq<Node>): set<Node> { set n | n in s }

  ghost function InfosOf(s: seq<Node>): set<Info>
    reads s`info
  {
    set n | n in s :: n.info
  }

  ghost function ViewOf(s: seq<Node>): View
    reads s`info, InfosOf(s)
  {
    map n | n in CellsOf(s) :: ValueOf(n)
  }

  ghost function LinksOf(s: seq<Node>): Links
    reads s`next
  {
    map n | n in CellsOf(s) :: n.next
  }

  ghost function SortingOf(cmp: Comparator, regenerate: bool, s: seq<Node>): Sorting {
    Sorting(cmp, regenerate, map n | n in CellsOf(s) :: IndexOf(s, n))
  }

  lemma SeesAll(s: seq<Node>)
    ensures Sees(CellsOf(s), InfosOf(s), Stage(ViewOf(s), {}), LinksOf(s))
  {
    forall n | n in CellsOf(s) ensures n.info in InfosOf(s) {
    }
  }

  lemma RanksAreIndices(cmp: Comparator, regenerate: bool, s: seq<Node>)
    requires NoDup(s)
    ensures var rank := SortingOf(cmp, regenerate, s).rank; forall k :: 0 <= k < |s| ==> s[k] in rank && rank[s[k]] == k
  {
    forall k | 0 <= k < |s| ensures s[k] in CellsOf(s) && IndexOf(s, s[k]) == k {
    }
  }

  lemma SortStart(list: Node, s: seq<Node>, cmp: Comparator, regenerate: bool)
    requires Chain(list, s) && s != []
    ensures Sees(CellsOf(s), InfosOf(s), Stage(ViewOf(s), {}), LinksOf(s)) == true
    ensures Passing(SortingOf(cmp, regenerate, s), CellsOf(s), s, s, 1, Stage(ViewOf(s), {}), LinksOf(s)) == true
  {
    SeesAll(s);
    RanksAreIndices(cmp, regenerate, s);
    forall k | 0 <= k < |s| ensures s[k] in CellsOf(s) {
    }
    PassingStart(SortingOf(cmp, regenerate, s), CellsOf(s), s, Stage(ViewOf(s), {}), LinksOf(s));
  }

  lemma SameCells(s: seq<Node>, t: seq<Node>)
    requires multiset(s) == multiset(t)
    ensures forall n :: n in s <==> n in t
  {
    forall n ensures n in s <==> n in t {
      assert n in s <==> n in multiset(s);
    }
  }

  /** What the sort has achieved, in terms of the heap. */
  lemma SortDone(cmp: Comparator, regenerate: bool, infos: set<Info>, s: seq<Node>, t: seq<Node>, w: nat, v: Stage, nx: Links)
    requires Passing(SortingOf(cmp, regenerate, s), CellsOf(s), s, t, w, v, nx) == true && |t| <= w && NoDup(s)
    requires Sees(CellsOf(s), infos, v, nx) == true
    ensures t != [] && Chain(t[0], t) == true && multiset(t) == multiset(s) && v.view == ViewOf(s)
    ensures SortedFrom(cmp, ViewOf(s), s, t) == true
    ensures AllCompared(s, v.compared) == true && AllSettled(cmp, regenerate, s, ViewOf(s)) == true
  {
    var st := SortingOf(cmp, regenerate, s);
    PassingEnd(st, CellsOf(s), s, t, w, v, nx);
    SameCells(s, t);
    ViewIsCurrent(infos, s, t, v, nx);
    RanksAreIndices(cmp, regenerate, s);
    RunIsSorted(st, s, t, v);
  }

  lemma ViewIsCurrent(infos: set<Info>, s: seq<Node>, t: seq<Node>, v: Stage, nx: Links)
    requires Sees(CellsOf(s), infos, v, nx) && forall n :: n in s <==> n in t
    requires t != [] && NoDup(t) && forall k :: 0 <= k < |t| ==> t[k] in nx && nx[t[k]] == At(t, k + 1)
    ensures v.view == ViewOf(s) && Chain(t[0], t)
    ensures forall n :: n in t ==> n in v.view && v.view[n] == ValueOf(n)
  {
    forall k | 0 <= k < |t| ensures t[k].next == At(t, k + 1) {
      assert t[k] in CellsOf(s);
    }
  }

  /**
   * `core_list_mergesort`. Whatever the comparator does, the result is one NULL-terminated chain of the same cells
   * carrying the same payload objects, and every cell of a list of two or more takes part in a comparison: `compared`
   * holds the cells that comparisons were made of. A comparator that orders by a key sorts the list stably.
   */
  method MergeSort(list0: Node, cmp: Comparator, res: Results?, ghost s: seq<Node>)
    returns (list: Node, ghost t: seq<Node>, ghost compared: set<Node>)
    requires Chain(list0, s) == true && s != [] && |s| <= 0x8000_0000
    requires cmp.ByData? ==> res != null
    modifies CellsOf(s)`next, InfosOf(s), res
    ensures Chain(list, t) == true && multiset(t) == multiset(s)
    ensures SortedFrom(cmp, ViewOf(s), s, t) == true && AllCompared(s, compared) == true
    ensures AllSettled(cmp, res == null, s, ViewOf(s)) == true
    ensures Evolves(cmp, res == null, old(ViewOf(s)), ViewOf(s)) == true
  {
    ghost var cells, infos, st := CellsOf(s), InfosOf(s), SortingOf(cmp, res == null, s);
    ghost var v0, nx0 := Stage(ViewOf(s), {}), LinksOf(s);
    SortStart(list0, s, cmp, res == null);
    ghost var v, nx, w;
    list, t, v, nx, w := Passes(list0, cmp, res, st, cells, infos, s, v0, nx0);
    SortDone(cmp, res == null, infos, s, t, w, v, nx);
    compared := v.compared;
  }
}
