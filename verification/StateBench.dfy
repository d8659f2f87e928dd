/** The state-machine benchmark: its input block, the scanner, and the corruption it applies and undoes. */
module StateBench {
  import opened Bits
  import opened Crc
  import opened Fold
  import opened Numerals
  import opened Strides
  import opened Words

  // ----- one token -----

  /** The first NUL or comma at or after p. */
  function TokenEnd(s: seq<Byte>, p: nat): (e: nat)
    requires p <= |s|
    ensures p <= e <= |s|
    decreases |s| - p
  {
    if p == |s| || s[p] == NUL || s[p] == COMMA then p else TokenEnd(s, p + 1)
  }

  function TokenAt(s: seq<Byte>, p: nat): seq<Byte>
    requires p <= |s|
  {
    s[p..TokenEnd(s, p)]
  }

  /** Past the comma, if the token ends with one. */
  function AfterToken(s: seq<Byte>, p: nat): nat
    requires p <= |s|
  {
    var e := TokenEnd(s, p);
    if e < |s| && s[e] == COMMA then e + 1 else e
  }

  /** z is the first NUL of the block. */
  ghost predicate FirstNul(s: seq<Byte>, z: nat) {
    z < |s| && s[z] == NUL && forall i :: 0 <= i < z ==> s[i] != NUL
  }

  lemma {:induction false} TokenInside(s: seq<Byte>, p: nat, z: nat)
    requires FirstNul(s, z) && p <= z
    ensures TokenEnd(s, p) <= z && (s[TokenEnd(s, p)] == NUL || s[TokenEnd(s, p)] == COMMA)
    decreases |s| - p
  {
    if s[p] != NUL && s[p] != COMMA {
      TokenInside(s, p + 1, z);
    }
  }

  lemma {:induction false} NoStopInside(s: seq<Byte>, p: nat, i: nat)
    requires p <= |s| && p <= i < TokenEnd(s, p)
    ensures s[i] != NUL && s[i] != COMMA
    decreases |s| - p
  {
    if i > p {
      NoStopInside(s, p + 1, i);
    }
  }

  lemma {:induction false} StopsThere(s: seq<Byte>, p: nat, e: nat)
    requires p <= e < |s| && (s[e] == NUL || s[e] == COMMA) && e <= TokenEnd(s, p)
    ensures TokenEnd(s, p) == e
    decreases |s| - p
  {
    if p < e {
      StopsThere(s, p + 1, e);
    }
  }

  // ----- the counters -----

  const NUM_CORE_STATES := 8

  /** The place of a state in the enumeration. */
  function Code(q: CoreState): (k: nat)
    ensures k < NUM_CORE_STATES
  {
    match q
    case Start => 0
    case Invalid => 1
    case S1 => 2
    case S2 => 3
    case Int => 4
    case Float => 5
    case Exponent => 6
    case Scientific => 7
  }

  /** Counters of 32 bits, one for each state. */
  predicate IsCounts(c: seq<nat>) { |c| == NUM_CORE_STATES && forall k :: 0 <= k < |c| ==> c[k] < UINT }

  function Bumped(c: seq<nat>, q: CoreState): (d: seq<nat>)
    requires IsCounts(c)
    ensures IsCounts(d)
  {
    c[Code(q) := (c[Code(q)] + 1) % UINT]
  }

  /** The state whose counter a step from q to q' goes to besides, or instead of, that of q. */
  function Tracked(c: seq<nat>, q: CoreState, q': CoreState): (d: seq<nat>)
    requires IsCounts(c)
    ensures IsCounts(d)
  {
    if q == Start then Bumped(if q' == Invalid then Bumped(c, Invalid) else c, Start)
    else if q == Scientific then (if q' == Invalid then Bumped(c, Invalid) else c)
    else if q' != q then Bumped(c, q) else c
  }

  /** The counters after a text. */
  function TrackedBy(c: seq<nat>, t: seq<Byte>): (d: seq<nat>)
    requires IsCounts(c)
    ensures IsCounts(d)
  {
    if t == [] then c else Tracked(TrackedBy(c, t[..|t| - 1]), StateOf(t[..|t| - 1]), StateOf(t))
  }

  /** Reading the text the automaton goes from q to another state. */
  predicate Leaves(t: seq<Byte>, q: CoreState) {
    t != [] && (Leaves(t[..|t| - 1], q) || (StateOf(t[..|t| - 1]) == q && StateOf(t) != q))
  }

  /** How far a state is from the start; no step leads back. */
  function Depth(q: CoreState): nat {
    match q
    case Start => 0
    case S1 => 1
    case Int => 2
    case Float => 3
    case S2 => 4
    case Exponent => 5
    case Scientific => 6
    case Invalid => 7
  }

  lemma {:induction false} LeftForGood(t: seq<Byte>, q: CoreState)
    requires Leaves(t, q)
    ensures Depth(StateOf(t)) > Depth(q)
  {
    var before := t[..|t| - 1];
    if Leaves(before, q) {
      LeftForGood(before, q);
    }
  }

  /** What the counters count: a text adds one to the counter of each state that it leaves, and none to the others. */
  lemma {:induction false} CountsDepartures(c: seq<nat>, t: seq<Byte>, q: CoreState)
    requires IsCounts(c) && q != Scientific && q != Invalid
    ensures TrackedBy(c, t)[Code(q)] == if Leaves(t, q) then (c[Code(q)] + 1) % UINT else c[Code(q)]
  {
    if t != [] {
      var before := t[..|t| - 1];
      CountsDepartures(c, before, q);
      if Leaves(before, q) {
        LeftForGood(before, q);
      }
      CountedStep(TrackedBy(c, before), StateOf(before), StateOf(t), q);
    }
  }

  /** The rejected text is rejected at once. */
  predicate RejectedAtOnce(t: seq<Byte>) { t != [] && Delta(Start, t[0]) == Invalid }

  /**
   * The counter of `Scientific` never moves; that of `Invalid` does so for a text that is rejected from there or at once,
   * and for no other rejected text.
   */
  lemma {:induction false} CountsRejections(c: seq<nat>, t: seq<Byte>)
    requires IsCounts(c)
    ensures TrackedBy(c, t)[Code(Scientific)] == c[Code(Scientific)]
    ensures TrackedBy(c, t)[Code(Invalid)]
         == if Leaves(t, Scientific) || RejectedAtOnce(t) then (c[Code(Invalid)] + 1) % UINT else c[Code(Invalid)]
  {
    if t != [] {
      var before := t[..|t| - 1];
      CountsRejections(c, before);
      if before == [] {
        assert StateOf(t) == Delta(Start, t[0]);
      } else {
        AtOnceStays(before);
        if Leaves(before, Scientific) {
          LeftForGood(before, Scientific);
        }
      }
    }
  }

  lemma {:induction false} AtOnceStays(t: seq<Byte>)
    requires t != []
    ensures RejectedAtOnce(t) ==> StateOf(t) == Invalid
    ensures StateOf(t) != Start && (Leaves(t, Scientific) ==> !RejectedAtOnce(t))
  {
    var before := t[..|t| - 1];
    if before == [] {
      assert StateOf(before) == Start && !Leaves(before, Scientific);
    } else {
      AtOnceStays(before);
    }
  }

  lemma CountedStep(c: seq<nat>, p: CoreState, p': CoreState, q: CoreState)
    requires IsCounts(c) && q != Scientific && q != Invalid && (p == Start ==> p' != Start)
    ensures Tracked(c, p, p')[Code(q)] == if p == q && p' != q then (c[Code(q)] + 1) % UINT else c[Code(q)]
  {
  }

  // ----- one token, as the code reads it -----

  /** The shortest beginning of t, of at least k characters, that is rejected, or all of t. */
  function Stop(t: seq<Byte>, k: nat): (n: nat)
    requires k <= |t|
    ensures k <= n <= |t|
    decreases |t| - k
  {
    if k == |t| || StateOf(t[..k]) == Invalid then k else Stop(t, k + 1)
  }

  /** What is read of the token at p. */
  function Read(s: seq<Byte>, p: nat): seq<Byte>
    requires p <= |s|
  {
    TokenAt(s, p)[..Stop(TokenAt(s, p), 0)]
  }

  /** Where reading goes on. */
  function NextPlace(s: seq<Byte>, p: nat): nat
    requires p <= |s|
  {
    if StateOf(Read(s, p)) == Invalid then p + |Read(s, p)| else AfterToken(s, p)
  }

  lemma {:induction false} StopsAt(t: seq<Byte>, j: nat, k: nat)
    requires j <= k <= |t| && (k < |t| ==> StateOf(t[..k]) == Invalid)
    requires forall i :: j <= i < k ==> StateOf(t[..i]) != Invalid
    ensures Stop(t, j) == k
    decreases k - j
  {
    if j < k {
      StopsAt(t, j + 1, k);
    }
  }

  /** A text that is not rejected has no rejected beginning. */
  lemma NotYetRejected(t: seq<Byte>, i: nat)
    requires StateOf(t) != Invalid && i <= |t|
    ensures StateOf(t[..i]) != Invalid
  {
    assert t[..i] + t[i..] == t;
    if StateOf(t[..i]) == Invalid {
      InvalidStays(t[..i], t[i..]);
    }
  }

  /** Reading up to q, where the text is rejected for the first time or the token ends. */
  lemma ReadIs(s: seq<Byte>, p: nat, q: nat)
    requires p <= |s| && p <= q <= TokenEnd(s, p)
    requires if StateOf(s[p..q]) == Invalid then p < q && StateOf(s[p..q - 1]) != Invalid else q == TokenEnd(s, p)
    ensures Read(s, p) == s[p..q]
  {
    var t, n := TokenAt(s, p), q - p;
    assert t[..n] == s[p..q];
    forall i | 0 <= i < n ensures StateOf(t[..i]) != Invalid {
      if StateOf(s[p..q]) == Invalid {
        NotYetRejected(s[p..q - 1], i);
        assert s[p..q - 1][..i] == t[..i];
      } else {
        NotYetRejected(s[p..q], i);
        assert s[p..q][..i] == t[..i];
      }
    }
    StopsAt(t, 0, n);
  }

  // ----- one token -----

  /** One step of the switch. */
  method Step(state0: CoreState, symbol: Byte, track: array<nat>) returns (state: CoreState)
    requires IsCounts(track[..]) && state0 != Invalid
    modifies track
    ensures state == Delta(state0, symbol) && track[..] == Tracked(old(track[..]), state0, state)
  {
    state := Delta(state0, symbol);
    if state0 == Start {
      if state == Invalid {
        Bump(track, Invalid);
      }
      Bump(track, Start);
    } else if state0 == Scientific {
      if state == Invalid {
        Bump(track, Invalid);
      }
    } else if state != state0 {
      Bump(track, state0);
    }
  }

  method Bump(counts: array<nat>, q: CoreState)
    requires IsCounts(counts[..])
    modifies counts
    ensures counts[..] == Bumped(old(counts[..]), q)
  {
    counts[Code(q)] := (counts[Code(q)] + 1) % UINT;
  }

  /** `core_state_transition`: the state of the token at p, where the next one starts, and the counters. */
  method Transition(mem: array<Byte>, p: nat, track: array<nat>, ghost z: nat) returns (state: CoreState, q: nat)
    requires FirstNul(mem[..], z) && p <= z && IsCounts(track[..])
    modifies track
    ensures state == StateOf(TokenAt(mem[..], p)) && p <= q <= z && (mem[p] != NUL ==> p < q)
    ensures state != Invalid ==> q == AfterToken(mem[..], p)
    ensures state == Invalid ==> p < q <= TokenEnd(mem[..], p) && StateOf(mem[p..q]) == Invalid && StateOf(mem[p..q - 1]) != Invalid
    ensures state == StateOf(Read(mem[..], p)) && q == NextPlace(mem[..], p)
    ensures track[..] == TrackedBy(old(track[..]), Read(mem[..], p))
  {
    ghost var s, c := mem[..], track[..];
    state, q := ReadToken(mem, p, track, z);
    if state == Invalid {
      RejectedToken(s, p, q);
    } else {
      WholeToken(s, p);
      if mem[q] == COMMA {
        q := q + 1;
      }
    }
  }

  lemma RejectedToken(s: seq<Byte>, p: nat, q: nat)
    requires p < q <= |s| && q <= TokenEnd(s, p) && StateOf(s[p..q]) == Invalid && StateOf(s[p..q - 1]) != Invalid
    ensures StateOf(TokenAt(s, p)) == Invalid && Read(s, p) == s[p..q] && NextPlace(s, p) == q
  {
    ReadIs(s, p, q);
    var e := TokenEnd(s, p);
    InvalidStays(s[p..q], s[q..e]);
    assert s[p..q] + s[q..e] == s[p..e];
  }

  lemma WholeToken(s: seq<Byte>, p: nat)
    requires p <= |s| && StateOf(s[p..TokenEnd(s, p)]) != Invalid
    ensures Read(s, p) == TokenAt(s, p) && NextPlace(s, p) == AfterToken(s, p)
  {
    ReadIs(s, p, TokenEnd(s, p));
  }

  /** The loop has read the text from p to q, with the counters c at its start and t now. */
  ghost predicate Reading(s: seq<Byte>, c: seq<nat>, p: nat, q: nat, state: CoreState, t: seq<nat>) {
    && p <= q <= |s| && state == StateOf(s[p..q])
    && (state == Invalid ==> p < q && StateOf(s[p..q - 1]) != Invalid)
    && IsCounts(c) && t == TrackedBy(c, s[p..q])
  }

  lemma ReadingNext(s: seq<Byte>, c: seq<nat>, p: nat, q: nat, state: CoreState, t: seq<nat>)
    requires Reading(s, c, p, q, state, t) && state != Invalid && q < |s|
    ensures IsCounts(t)
    ensures Reading(s, c, p, q + 1, Delta(state, s[q]), Tracked(t, state, Delta(state, s[q]))) == true
  {
    assert s[p..q + 1] == s[p..q] + [s[q]];
    assert s[p..q + 1][..|s[p..q + 1]| - 1] == s[p..q];
  }

  lemma ReadingStarts(s: seq<Byte>, c: seq<nat>, p: nat)
    requires p <= |s| && IsCounts(c)
    ensures Reading(s, c, p, p, Start, c) == true
  {
    assert s[p..p] == [];
  }

  /** The loop, up to the end of the token or the first rejected beginning; the comma is still to come. */
  method ReadToken(mem: array<Byte>, p: nat, track: array<nat>, ghost z: nat) returns (state: CoreState, q: nat)
    requires FirstNul(mem[..], z) && p <= z && IsCounts(track[..])
    modifies track
    ensures p <= q <= TokenEnd(mem[..], p) <= z && state == StateOf(mem[p..q])
    ensures mem[TokenEnd(mem[..], p)] == NUL || mem[TokenEnd(mem[..], p)] == COMMA
    ensures if state == Invalid then p < q && StateOf(mem[p..q - 1]) != Invalid else q == TokenEnd(mem[..], p)
    ensures track[..] == TrackedBy(old(track[..]), mem[p..q])
  {
    ghost var s, e, c := mem[..], TokenEnd(mem[..], p), track[..];
    TokenInside(s, p, z);
    ReadingStarts(s, c, p);
    q, state := p, Start;
    while mem[q] != NUL && state != Invalid
      invariant p <= q <= e && mem[..] == s && Reading(s, c, p, q, state, track[..]) == true
      decreases z - q
    {
      var symbol := mem[q];
      if symbol == COMMA {
        break;
      }
      ReadingNext(s, c, p, q, state, track[..]);
      state := Step(state, symbol, track);
      q := q + 1;
    }
    if state != Invalid {
      StopsThere(s, p, q);
    }
  }

  // ----- a whole scan -----

  /** Where reading goes on is further on, and still before the NUL. */
  lemma NextInside(s: seq<Byte>, p: nat, z: nat)
    requires FirstNul(s, z) && p < z
    ensures p < NextPlace(s, p) <= z
  {
    TokenInside(s, p, z);
    if StateOf(Read(s, p)) != Invalid && TokenEnd(s, p) == p {
      assert s[p] == COMMA;
    }
    if StateOf(Read(s, p)) == Invalid {
      assert Read(s, p) != [];
    }
  }

  /** Where reading goes on, given the first NUL or comma e at or after p, and what is read. */
  lemma NextPlaceIs(s: seq<Byte>, p: nat, e: nat)
    requires p <= e < |s| && (s[e] == NUL || s[e] == COMMA) && forall i :: p <= i < e ==> s[i] != NUL && s[i] != COMMA
    ensures TokenAt(s, p) == s[p..e] && StateOf(Read(s, p)) == StateOf(s[p..e])
    ensures StateOf(s[p..e]) != Invalid ==> Read(s, p) == s[p..e] && NextPlace(s, p) == if s[e] == COMMA then e + 1 else e
    ensures StateOf(s[p..e]) == Invalid ==>
              && p < NextPlace(s, p) <= e && Read(s, p) == s[p..NextPlace(s, p)]
              && StateOf(s[p..NextPlace(s, p)]) == Invalid && StateOf(s[p..NextPlace(s, p) - 1]) != Invalid
  {
    EndsThere(s, p, e);
    if StateOf(s[p..e]) == Invalid {
      RejectedInside(s, p, e);
    } else {
      WholeToken(s, p);
    }
  }

  lemma RejectedInside(s: seq<Byte>, p: nat, e: nat)
    requires p <= e <= |s| && TokenEnd(s, p) == e && StateOf(s[p..e]) == Invalid
    ensures StateOf(Read(s, p)) == Invalid
    ensures p < NextPlace(s, p) <= e && Read(s, p) == s[p..NextPlace(s, p)]
    ensures StateOf(s[p..NextPlace(s, p)]) == Invalid && StateOf(s[p..NextPlace(s, p) - 1]) != Invalid
  {
    var n := FirstRejected(s[p..e]);
    BeginningOf(s, p, e, n);
    BeginningOf(s, p, e, n - 1);
    RejectedToken(s, p, p + n);
  }

  lemma BeginningOf(s: seq<Byte>, p: nat, e: nat, n: nat)
    requires p + n <= e <= |s|
    ensures s[p..e][..n] == s[p..p + n]
  {
  }

  lemma {:induction false} EndsThere(s: seq<Byte>, p: nat, e: nat)
    requires p <= e < |s| && (s[e] == NUL || s[e] == COMMA) && forall i :: p <= i < e ==> s[i] != NUL && s[i] != COMMA
    ensures TokenEnd(s, p) == e
    decreases e - p
  {
    if p < e {
      EndsThere(s, p + 1, e);
    }
  }

  lemma {:induction false} FirstRejected(t: seq<Byte>) returns (n: nat)
    requires StateOf(t) == Invalid
    ensures 0 < n <= |t| && StateOf(t[..n]) == Invalid && StateOf(t[..n - 1]) != Invalid
  {
    var before := t[..|t| - 1];
    if StateOf(before) == Invalid {
      n := FirstRejected(before);
      assert before[..n] == t[..n] && before[..n - 1] == t[..n - 1];
    } else {
      n := |t|;
      assert t[..n] == t;
    }
  }

  /** The tokens of a block, each as far as it is read: from the place where reading went on after the one before. */
  ghost function Tokens(s: seq<Byte>, p: nat, z: nat): seq<seq<Byte>>
    requires FirstNul(s, z) && p <= z
    decreases z - p
  {
    if p == z then []
    else
      NextInside(s, p, z);
      [Read(s, p)] + Tokens(s, NextPlace(s, p), z)
  }

  /** How many of the tokens end in a state. */
  function Ending(tokens: seq<seq<Byte>>, q: CoreState): nat {
    if tokens == [] then 0 else (if StateOf(tokens[0]) == q then 1 else 0) + Ending(tokens[1..], q)
  }

  /** A token that adds to the step counter of a state: see CountsDepartures and CountsRejections. */
  predicate Tracks(t: seq<Byte>, q: CoreState) {
    if q == Scientific then false
    else if q == Invalid then Leaves(t, Scientific) || RejectedAtOnce(t)
    else Leaves(t, q)
  }

  /** How many of the tokens add to the step counter of a state. */
  function Tracking(tokens: seq<seq<Byte>>, q: CoreState): nat {
    if tokens == [] then 0 else (if Tracks(tokens[0], q) then 1 else 0) + Tracking(tokens[1..], q)
  }

  /** The counter of q is n higher in d than in c. */
  predicate UpBy(c: seq<nat>, d: seq<nat>, q: CoreState, n: nat) {
    IsCounts(c) && IsCounts(d) && d[Code(q)] == (c[Code(q)] + n) % UINT
  }

  lemma StillAt(c: seq<nat>, q: CoreState)
    requires IsCounts(c)
    ensures UpBy(c, c, q, 0) == true
  {
  }

  lemma UpTwice(c: seq<nat>, d: seq<nat>, e: seq<nat>, q: CoreState, m: nat, n: nat)
    requires UpBy(c, d, q, m) && UpBy(d, e, q, n)
    ensures UpBy(c, e, q, m + n) == true
  {
  }

  lemma BumpedOne(c: seq<nat>, state: CoreState, q: CoreState, one: nat)
    requires IsCounts(c) && one == if state == q then 1 else 0
    ensures UpBy(c, Bumped(c, state), q, one) == true
  {
  }

  lemma TracksOne(c: seq<nat>, t: seq<Byte>, q: CoreState, one: nat)
    requires IsCounts(c) && one == if Tracks(t, q) then 1 else 0
    ensures UpBy(c, TrackedBy(c, t), q, one) == true
  {
    if q == Scientific || q == Invalid {
      CountsRejections(c, t);
    } else {
      CountsDepartures(c, t, q);
    }
  }

  /** The counters of final states, and those of steps, after a list of tokens. */
  function AllEnded(c: seq<nat>, tokens: seq<seq<Byte>>): (d: seq<nat>)
    requires IsCounts(c)
    ensures IsCounts(d)
    decreases |tokens|
  {
    if tokens == [] then c else AllEnded(Bumped(c, StateOf(tokens[0])), tokens[1..])
  }

  function AllTracked(c: seq<nat>, tokens: seq<seq<Byte>>): (d: seq<nat>)
    requires IsCounts(c)
    ensures IsCounts(d)
    decreases |tokens|
  {
    if tokens == [] then c else AllTracked(TrackedBy(c, tokens[0]), tokens[1..])
  }

  lemma {:induction false} EndedIs(c: seq<nat>, tokens: seq<seq<Byte>>, q: CoreState)
    requires IsCounts(c)
    ensures UpBy(c, AllEnded(c, tokens), q, Ending(tokens, q)) == true
    decreases |tokens|
  {
    if tokens == [] {
      StillAt(c, q);
    } else {
      var d, one: nat := Bumped(c, StateOf(tokens[0])), if StateOf(tokens[0]) == q then 1 else 0;
      EndedIs(d, tokens[1..], q);
      BumpedOne(c, StateOf(tokens[0]), q, one);
      UpTwice(c, d, AllEnded(c, tokens), q, one, Ending(tokens[1..], q));
    }
  }

  lemma {:induction false} TrackedIs(c: seq<nat>, tokens: seq<seq<Byte>>, q: CoreState)
    requires IsCounts(c)
    ensures UpBy(c, AllTracked(c, tokens), q, Tracking(tokens, q)) == true
    decreases |tokens|
  {
    if tokens == [] {
      StillAt(c, q);
    } else {
      var d, one: nat := TrackedBy(c, tokens[0]), if Tracks(tokens[0], q) then 1 else 0;
      TrackedIs(d, tokens[1..], q);
      TracksOne(c, tokens[0], q, one);
      UpTwice(c, d, AllTracked(c, tokens), q, one, Tracking(tokens[1..], q));
    }
  }

  lemma {:induction false} CountedBy(s: seq<Byte>, p: nat, z: nat, finals: seq<nat>, track: seq<nat>)
    requires FirstNul(s, z) && p <= z && IsCounts(finals) && IsCounts(track)
    ensures Counted(s, p, z, finals, track) == (AllEnded(finals, Tokens(s, p, z)), AllTracked(track, Tokens(s, p, z)))
    decreases z - p
  {
    if p < z {
      NextInside(s, p, z);
      var next, t := NextPlace(s, p), Read(s, p);
      CountedBy(s, next, z, Bumped(finals, StateOf(t)), TrackedBy(track, t));
      FirstToken(finals, track, t, Tokens(s, next, z));
    }
  }

  lemma FirstToken(finals: seq<nat>, track: seq<nat>, t: seq<Byte>, tokens: seq<seq<Byte>>)
    requires IsCounts(finals) && IsCounts(track)
    ensures AllEnded(finals, [t] + tokens) == AllEnded(Bumped(finals, StateOf(t)), tokens)
    ensures AllTracked(track, [t] + tokens) == AllTracked(TrackedBy(track, t), tokens)
  {
    assert ([t] + tokens)[1..] == tokens;
  }

  /** Each counter goes up by the number of tokens that end in, or track, its state. */
  lemma CountedIs(s: seq<Byte>, z: nat, finals: seq<nat>, track: seq<nat>, q: CoreState, r: (seq<nat>, seq<nat>))
    requires FirstNul(s, z) && IsCounts(finals) && IsCounts(track) && r == Counted(s, 0, z, finals, track)
    ensures UpBy(finals, r.0, q, Ending(Tokens(s, 0, z), q)) == true && UpBy(track, r.1, q, Tracking(Tokens(s, 0, z), q)) == true
  {
    CountedBy(s, 0, z, finals, track);
    EndedIs(finals, Tokens(s, 0, z), q);
    TrackedIs(track, Tokens(s, 0, z), q);
  }

  /** The counters of final states and of steps, after all tokens from p on. */
  ghost function Counted(s: seq<Byte>, p: nat, z: nat, finals: seq<nat>, track: seq<nat>): (r: (seq<nat>, seq<nat>))
    requires FirstNul(s, z) && p <= z && IsCounts(finals) && IsCounts(track)
    ensures IsCounts(r.0) && IsCounts(r.1)
    decreases z - p
  {
    if p == z then (finals, track)
    else
      NextInside(s, p, z);
      Counted(s, NextPlace(s, p), z, Bumped(finals, StateOf(Read(s, p))), TrackedBy(track, Read(s, p)))
  }

  /** A scan of the benchmark: token after token, to the first NUL and never past it. */
  method Scan(mem: array<Byte>, finals: array<nat>, track: array<nat>, ghost z: nat) returns (p: nat)
    requires FirstNul(mem[..], z) && IsCounts(finals[..]) && IsCounts(track[..]) && finals != track
    modifies finals, track
    ensures p == z && (finals[..], track[..]) == Counted(mem[..], 0, z, old(finals[..]), old(track[..]))
    ensures forall q: CoreState :: UpBy(old(finals[..]), finals[..], q, Ending(Tokens(mem[..], 0, z), q))
    ensures forall q: CoreState :: UpBy(old(track[..]), track[..], q, Tracking(Tokens(mem[..], 0, z), q))
  {
    p := 0;
    ghost var s := mem[..];
    while mem[p] != NUL
      invariant p <= z && mem[..] == s && IsCounts(finals[..]) && IsCounts(track[..])
      invariant Counted(s, p, z, finals[..], track[..]) == Counted(s, 0, z, old(finals[..]), old(track[..]))
      decreases z - p
    {
      var fstate;
      fstate, p := Transition(mem, p, track, z);
      Bump(finals, fstate);
    }
    forall q: CoreState
      ensures UpBy(old(finals[..]), finals[..], q, Ending(Tokens(s, 0, z), q))
      ensures UpBy(old(track[..]), track[..], q, Tracking(Tokens(s, 0, z), q))
    {
      CountedIs(s, z, old(finals[..]), old(track[..]), q, (finals[..], track[..]));
    }
  }

  // ----- corruption -----

  /** A byte exclusive-ored with a seed; a comma stays. */
  function Flipped(c: Byte, seed: Byte): Byte {
    ByteXor(c, seed);
    if c == COMMA then c else Xor(c, seed)
  }

  lemma ByteXor(c: Byte, seed: Byte)
    ensures Xor(c, seed) < 0x100
  {
    assert Pow2(4) == 16;
    XorBound(c, seed, 8);
  }

  function Corrupted(s: seq<Byte>, n: nat, p: nat, step: nat, seed: Byte): (r: seq<Byte>)
    requires n <= |s| && step > 0
    ensures |r| == |s|
    decreases n - p
  {
    if p >= n then s else Corrupted(s[p := Flipped(s[p], seed)], n, p + step, step, seed)
  }

  lemma {:induction false} CorruptedAt(s: seq<Byte>, n: nat, p: nat, step: nat, seed: Byte, i: nat)
    requires n <= |s| && step > 0 && i < |s|
    ensures Corrupted(s, n, p, step, seed)[i] == if i < n && Visited(i, p, step) then Flipped(s[i], seed) else s[i]
    decreases n - p
  {
    if p < n {
      CorruptedAt(s[p := Flipped(s[p], seed)], n, p + step, step, seed, i);
      NotBefore(i, p + step, step);
    } else {
      NotBefore(i, p, step);
    }
  }

  /** The loops at the two ends of the benchmark. */
  method Corrupt(mem: array<Byte>, blksize: nat, seed: Byte, step: nat)
    requires blksize <= mem.Length && step > 0
    modifies mem
    ensures mem[..] == Corrupted(old(mem[..]), blksize, 0, step, seed)
  {
    var p := 0;
    while p < blksize
      invariant Corrupted(mem[..], blksize, p, step, seed) == Corrupted(old(mem[..]), blksize, 0, step, seed)
      decreases blksize - p
    {
      ghost var s := mem[..];
      if mem[p] != COMMA {
        ByteXor(mem[p], seed);
        mem[p] := Xor(mem[p], seed);
      }
      assert mem[..] == s[p := Flipped(s[p], seed)];
      p := p + step;
    }
  }

  ghost predicate HasNul(s: seq<Byte>) { exists z: nat :: FirstNul(s, z) }

  /** A byte is or becomes NUL: a visited one that equals the seed, or one that was NUL and is not visited. */
  predicate NulAfter(s: seq<Byte>, n: nat, step: nat, seed: Byte, i: nat)
    requires step > 0 && i < |s|
  {
    if i < n && Visited(i, 0, step) then s[i] != COMMA && s[i] == seed else s[i] == NUL
  }

  lemma FlippedToNul(c: Byte, seed: Byte)
    ensures Flipped(c, seed) == NUL <==> c != COMMA && c == seed
  {
    XorZero(seed);
    if Xor(c, seed) == 0 {
      XorCancel(c, seed, seed);
    }
  }

  lemma FirstNulUpTo(s: seq<Byte>, k: nat) returns (z: nat)
    requires k < |s| && s[k] == NUL
    ensures FirstNul(s, z) && z <= k
  {
    z := 0;
    while s[z] != NUL
      invariant z <= k && forall i :: 0 <= i < z ==> s[i] != NUL
      decreases k - z
    {
      z := z + 1;
    }
  }

  /** The second scan ends inside the block exactly if some byte is NUL after the corruption. */
  lemma StillStops(s: seq<Byte>, n: nat, step: nat, seed: Byte)
    requires n <= |s| && step > 0
    ensures HasNul(Corrupted(s, n, 0, step, seed)) <==> (exists i :: 0 <= i < |s| && NulAfter(s, n, step, seed, i))
  {
    var t := Corrupted(s, n, 0, step, seed);
    forall i | 0 <= i < |s| ensures t[i] == NUL <==> NulAfter(s, n, step, seed, i) {
      CorruptedAt(s, n, 0, step, seed, i);
      FlippedToNul(s[i], seed);
    }
    if exists i :: 0 <= i < |s| && NulAfter(s, n, step, seed, i) {
      var i :| 0 <= i < |s| && NulAfter(s, n, step, seed, i);
      assert t[i] == NUL;
      var z := FirstNulUpTo(t, i);
    } else {
      assert forall i :: 0 <= i < |s| ==> t[i] != NUL;
    }
  }

  /** Of two neighbouring zeros a stride of two or more hits one at most. */
  lemma TwoNulsKeepOne(s: seq<Byte>, n: nat, step: nat, seed: Byte, k: nat) returns (z: nat)
    requires n <= |s| && step >= 2 && k + 1 < |s| && s[k] == NUL && s[k + 1] == NUL
    ensures z <= k + 1 && FirstNul(Corrupted(s, n, 0, step, seed), z)
  {
    CorruptedAt(s, n, 0, step, seed, k);
    CorruptedAt(s, n, 0, step, seed, k + 1);
    if Visited(k, 0, step) {
      NextVisited(k, 0, step);
      assert !Visited(k + 1, 0, step);
      z := FirstNulUpTo(Corrupted(s, n, 0, step, seed), k + 1);
    } else {
      z := FirstNulUpTo(Corrupted(s, n, 0, step, seed), k);
    }
  }

  /** The checksum over pairs of counters. */
  function Checksum(finals: seq<nat>, track: seq<nat>, n: nat, crc: Word): Word
    requires IsCounts(finals) && IsCounts(track) && n <= NUM_CORE_STATES
  {
    if n == 0 then crc
    else Feed(LowBits(track[n - 1], 32), Feed(LowBits(finals[n - 1], 32), Checksum(finals, track, n - 1, crc)))
  }

  method AddCounts(finals: array<nat>, track: array<nat>, crc0: Word) returns (crc: Word)
    requires IsCounts(finals[..]) && IsCounts(track[..])
    ensures crc == Checksum(finals[..], track[..], NUM_CORE_STATES, crc0)
  {
    crc := crc0;
    for i := 0 to NUM_CORE_STATES
      invariant crc == Checksum(finals[..], track[..], i, crc0)
    {
      crc := Crcu32(finals[i], crc);
      crc := Crcu32(track[i], crc);
    }
  }

  const NO_COUNTS: seq<nat> := [0, 0, 0, 0, 0, 0, 0, 0]

  /** The result of `core_bench_state`: the counters of both scans, in the checksum. */
  ghost function BenchResult(s: seq<Byte>, z: nat, t: seq<Byte>, z': nat, crc: Word): Word
    requires FirstNul(s, z) && FirstNul(t, z')
  {
    var first := Counted(s, 0, z, NO_COUNTS, NO_COUNTS);
    var both := Counted(t, 0, z', first.0, first.1);
    Checksum(both.0, both.1, NUM_CORE_STATES, crc)
  }

  /** The states in the order of the enumeration. */
  const STATES := [Start, Invalid, S1, S2, Int, Float, Exponent, Scientific]

  function Low32(n: nat): nat { n % UINT }

  /** For each state two numbers: how many of the tokens end in it, and how many track it. */
  function TokenCounts(tokens: seq<seq<Byte>>, states: seq<CoreState>): seq<nat> {
    if states == [] then []
    else [Low32(Ending(tokens, states[0])), Low32(Tracking(tokens, states[0]))] + TokenCounts(tokens, states[1..])
  }

  /** Both counters of each state have counted these tokens, from zero. */
  ghost predicate HaveCounted(finals: seq<nat>, track: seq<nat>, tokens: seq<seq<Byte>>) {
    forall q: CoreState :: UpBy(NO_COUNTS, finals, q, Ending(tokens, q)) && UpBy(NO_COUNTS, track, q, Tracking(tokens, q))
  }

  lemma CountsOf(finals: seq<nat>, track: seq<nat>, tokens: seq<seq<Byte>>, q: CoreState)
    requires HaveCounted(finals, track, tokens)
    ensures IsCounts(finals) && finals[Code(q)] == Low32(Ending(tokens, q))
    ensures IsCounts(track) && track[Code(q)] == Low32(Tracking(tokens, q))
  {
    FromNothing(finals, q, Ending(tokens, q));
    FromNothing(track, q, Tracking(tokens, q));
  }

  lemma FromNothing(d: seq<nat>, q: CoreState, n: nat)
    requires UpBy(NO_COUNTS, d, q, n)
    ensures IsCounts(d) && d[Code(q)] == Low32(n)
  {
  }

  lemma {:induction false} CountsAdd(a: seq<seq<Byte>>, b: seq<seq<Byte>>, q: CoreState)
    ensures Ending(a + b, q) == Ending(a, q) + Ending(b, q) && Tracking(a + b, q) == Tracking(a, q) + Tracking(b, q)
    decreases |a|
  {
    if a == [] {
      assert a + b == b;
    } else {
      CountsAdd(a[1..], b, q);
      assert (a + b)[1..] == a[1..] + b;
    }
  }

  lemma BothHaveCounted(a: seq<seq<Byte>>, b: seq<seq<Byte>>, c: (seq<nat>, seq<nat>), d: (seq<nat>, seq<nat>))
    requires forall q: CoreState :: UpBy(NO_COUNTS, c.0, q, Ending(a, q)) && UpBy(NO_COUNTS, c.1, q, Tracking(a, q))
    requires forall q: CoreState :: UpBy(c.0, d.0, q, Ending(b, q)) && UpBy(c.1, d.1, q, Tracking(b, q))
    ensures HaveCounted(d.0, d.1, a + b) == true
  {
    forall q: CoreState
      ensures UpBy(NO_COUNTS, d.0, q, Ending(a + b, q)) && UpBy(NO_COUNTS, d.1, q, Tracking(a + b, q))
    {
      CountsAdd(a, b, q);
      UpTwice(NO_COUNTS, c.0, d.0, q, Ending(a, q), Ending(b, q));
      UpTwice(NO_COUNTS, c.1, d.1, q, Tracking(a, q), Tracking(b, q));
    }
  }

  /** The counters of the last n states in pairs. */
  function Pairs(finals: seq<nat>, track: seq<nat>, k: nat): (p: seq<nat>)
    requires IsCounts(finals) && IsCounts(track) && k <= NUM_CORE_STATES
    decreases NUM_CORE_STATES - k
  {
    if k == NUM_CORE_STATES then [] else [finals[k], track[k]] + Pairs(finals, track, k + 1)
  }

  /** The checksum over pairs of n-bit counters, from those of state k on. */
  function ChecksumFrom(finals: seq<nat>, track: seq<nat>, k: nat, n: nat, crc: Word): Word
    requires IsCounts(finals) && IsCounts(track) && k <= NUM_CORE_STATES
  {
    Feed(WordsMessage(Pairs(finals, track, k), n), crc)
  }

  lemma ChecksumStep(finals: seq<nat>, track: seq<nat>, k: nat, n: nat, crc: Word)
    requires IsCounts(finals) && IsCounts(track) && k < NUM_CORE_STATES
    ensures ChecksumFrom(finals, track, k, n, crc)
         == ChecksumFrom(finals, track, k + 1, n, Feed(LowBits(track[k], n), Feed(LowBits(finals[k], n), crc)))
  {
    var rest := Pairs(finals, track, k + 1);
    assert [finals[k], track[k]] + rest == [finals[k]] + ([track[k]] + rest);
    FeedWord(finals[k], [track[k]] + rest, n, crc);
    FeedWord(track[k], rest, n, Feed(LowBits(finals[k], n), crc));
  }

  lemma {:induction false} ChecksumIs(finals: seq<nat>, track: seq<nat>, k: nat, n: nat, crc: Word)
    requires IsCounts(finals) && IsCounts(track) && k <= NUM_CORE_STATES && n == 32
    ensures ChecksumFrom(finals, track, 0, n, crc) == ChecksumFrom(finals, track, k, n, Checksum(finals, track, k, crc))
  {
    if k > 0 {
      ChecksumIs(finals, track, k - 1, n, crc);
      ChecksumStep(finals, track, k - 1, n, Checksum(finals, track, k - 1, crc));
    }
  }

  lemma NthState(k: nat)
    requires k < NUM_CORE_STATES
    ensures STATES[k..][0] == STATES[k] && STATES[k..][1..] == STATES[k + 1..] && Code(STATES[k]) == k
  {
  }

  lemma {:induction false} CountsAre(finals: seq<nat>, track: seq<nat>, tokens: seq<seq<Byte>>, k: nat)
    requires IsCounts(finals) && IsCounts(track) && HaveCounted(finals, track, tokens) == true && k <= NUM_CORE_STATES
    ensures Pairs(finals, track, k) == TokenCounts(tokens, STATES[k..])
    decreases NUM_CORE_STATES - k
  {
    if k < NUM_CORE_STATES {
      CountsAre(finals, track, tokens, k + 1);
      NthState(k);
      CountsOf(finals, track, tokens, STATES[k]);
    }
  }

  /** The tokens of a block as it is, and of the block once corrupted. */
  ghost function BothTokens(s: seq<Byte>, z: nat, t: seq<Byte>, z': nat): seq<seq<Byte>>
    requires FirstNul(s, z) && FirstNul(t, z')
  {
    Tokens(s, 0, z) + Tokens(t, 0, z')
  }

  /** The result in closed form: the checksum of the token counts of both blocks, state by state. */
  lemma BenchResultIs(s: seq<Byte>, z: nat, t: seq<Byte>, z': nat, crc: Word)
    requires FirstNul(s, z) && FirstNul(t, z')
    ensures BenchResult(s, z, t, z', crc) == Feed(WordsMessage(TokenCounts(BothTokens(s, z, t, z'), STATES), 32), crc)
  {
    var first := Counted(s, 0, z, NO_COUNTS, NO_COUNTS);
    var both := Counted(t, 0, z', first.0, first.1);
    forall q: CoreState
      ensures UpBy(NO_COUNTS, first.0, q, Ending(Tokens(s, 0, z), q)) && UpBy(NO_COUNTS, first.1, q, Tracking(Tokens(s, 0, z), q))
      ensures UpBy(first.0, both.0, q, Ending(Tokens(t, 0, z'), q)) && UpBy(first.1, both.1, q, Tracking(Tokens(t, 0, z'), q))
    {
      CountedIs(s, z, NO_COUNTS, NO_COUNTS, q, first);
      CountedIs(t, z', first.0, first.1, q, both);
    }
    BothHaveCounted(Tokens(s, 0, z), Tokens(t, 0, z'), first, both);
    ChecksumIs(both.0, both.1, NUM_CORE_STATES, 32, crc);
    CountsAre(both.0, both.1, BothTokens(s, z, t, z'), 0);
    assert STATES[0..] == STATES;
  }

  /** `core_bench_state`; the seeds are the low bytes of the arguments. */
  method Bench(mem: array<Byte>, blksize: nat, seed1: Byte, seed2: Byte, step: nat, crc0: Word, ghost z: nat, ghost z': nat)
    returns (crc: Word)
    requires blksize <= mem.Length && step > 0 && FirstNul(mem[..], z)
    requires FirstNul(Corrupted(mem[..], blksize, 0, step, seed1), z')
    modifies mem
    ensures mem[..] == Corrupted(Corrupted(old(mem[..]), blksize, 0, step, seed1), blksize, 0, step, seed2)
    ensures crc == BenchResult(old(mem[..]), z, Corrupted(old(mem[..]), blksize, 0, step, seed1), z', crc0)
  {
    var finals, track := new nat[NUM_CORE_STATES](_ => 0), new nat[NUM_CORE_STATES](_ => 0);
    assert finals[..] == NO_COUNTS && track[..] == NO_COUNTS;
    var p := Scan(mem, finals, track, z);
    Corrupt(mem, blksize, seed1, step);
    p := Scan(mem, finals, track, z');
    Corrupt(mem, blksize, seed2, step);
    crc := AddCounts(finals, track, crc0);
  }

  lemma FlippedBack(c: Byte, seed1: Byte, seed2: Byte)
    ensures Flipped(Flipped(c, seed1), seed2) == c <==> c == COMMA || (seed1 == seed2 && Xor(c, seed1) != COMMA)
  {
    ByteXor(c, seed1);
    if c != COMMA && Xor(c, seed1) != COMMA {
      XorAssoc(c, seed2, seed2);
      XorZero(seed2);
      XorZero(c);
      if Xor(Xor(c, seed1), seed2) == c {
        XorCancel(Xor(c, seed1), Xor(c, seed2), seed2);
        XorComm(c, seed1);
        XorComm(c, seed2);
        XorCancel(seed1, seed2, c);
      }
    }
  }

  /** The block is back as it was exactly if the seeds agree and no byte turned into a comma on the way. */
  lemma RestoredIff(s: seq<Byte>, n: nat, step: nat, seed1: Byte, seed2: Byte)
    requires n <= |s| && step > 0
    ensures Corrupted(Corrupted(s, n, 0, step, seed1), n, 0, step, seed2) == s <==>
            forall i :: 0 <= i < n && Visited(i, 0, step) && s[i] != COMMA ==> seed1 == seed2 && Xor(s[i], seed1) != COMMA
  {
    var t := Corrupted(s, n, 0, step, seed1);
    var u := Corrupted(t, n, 0, step, seed2);
    forall i | 0 <= i < |s|
      ensures u[i] == s[i] <==> !(i < n && Visited(i, 0, step) && s[i] != COMMA) || (seed1 == seed2 && Xor(s[i], seed1) != COMMA)
    {
      CorruptedAt(s, n, 0, step, seed1, i);
      CorruptedAt(t, n, 0, step, seed2, i);
      FlippedBack(s[i], seed1, seed2);
    }
  }

  // ----- the input block -----

  function Bytes(s: string): (t: seq<Byte>)
    ensures |t| == |s|
  {
    seq(|s|, i requires 0 <= i < |s| => (s[i] as nat) % 0x100)
  }

  const INTS := ["5012", "1234", "-874", "+122"]
  const FLOATS := ["35.54400", ".1234500", "-110.700", "+0.64400"]
  const SCIENTIFICS := ["5.500e+3", "-.123e-2", "-87e+832", "+0.6e-12"]
  const ERRORS := ["T0.3e-1F", "-T.T++Tq", "1T3.4e4z", "34.0e-T^"]

  /** The pattern for a seed, a 16-bit number. */
  function Pattern(seed: nat): (t: seq<Byte>)
    ensures |t| == if seed % 8 < 3 then 4 else 8
  {
    var n := (seed / 8) % 4;
    Bytes(if seed % 8 < 3 then INTS[n] else if seed % 8 < 5 then FLOATS[n] else if seed % 8 < 7 then SCIENTIFICS[n] else ERRORS[n])
  }

  /** The seed after k increments. */
  function SeedAt(seed: nat, k: nat): nat {
    if k == 0 then seed else (SeedAt(seed, k - 1) + 1) % 0x1_0000
  }

  lemma {:induction false} SeedAtIs(seed: nat, k: nat)
    requires seed < 0x1_0000
    ensures SeedAt(seed, k) == (seed + k) % 0x1_0000
  {
    if k > 0 {
      SeedAtIs(seed, k - 1);
    }
  }

  /** The patterns of the k seeds after this one, each with its comma. */
  function Joined(seed: nat, k: nat): seq<Byte> {
    if k == 0 then [] else Joined(seed, k - 1) + Pattern(SeedAt(seed, k)) + [COMMA]
  }

  /** Pattern i, counted from 0, is that of the seed i + 1 further on, and stands behind the patterns before it. */
  lemma PatternAt(seed: nat, i: nat, k: nat, further: nat)
    requires seed < 0x1_0000 && i < k && further == (seed + i + 1) % 0x1_0000
    ensures Joined(seed, i) + Pattern(further) + [COMMA] <= Joined(seed, k)
  {
    SeedAtIs(seed, i + 1);
    JoinedOne(seed, i, further);
    JoinedBegins(seed, i + 1, k);
  }

  lemma JoinedOne(seed: nat, k: nat, next: nat)
    requires next == SeedAt(seed, k + 1)
    ensures Joined(seed, k + 1) == Joined(seed, k) + Pattern(next) + [COMMA]
  {
  }

  lemma {:induction false} JoinedBegins(seed: nat, i: nat, k: nat)
    requires i <= k
    ensures Joined(seed, i) <= Joined(seed, k)
  {
    if i < k {
      JoinedBegins(seed, i, k - 1);
      assert Joined(seed, k) == Joined(seed, k - 1) + Pattern(SeedAt(seed, k)) + [COMMA];
    }
  }

  function Zeros(n: nat): (s: seq<Byte>)
    ensures |s| == n && forall i :: 0 <= i < n ==> s[i] == NUL
  {
    seq(n, _ => NUL)
  }

  /** The pattern that comes next, if one has been chosen. */
  predicate Chosen(seed: nat, k: nat, current: nat, buf: seq<Byte>) {
    if buf == [] then k == 0 && current == seed else current == SeedAt(seed, k + 1) && buf == Pattern(current)
  }

  lemma NextChosen(seed: nat, k: nat, current: nat, buf: seq<Byte>)
    requires current == (SeedAt(seed, k) + 1) % 0x1_0000 && buf == Pattern(current)
    ensures Chosen(seed, k, current, buf) == true
  {
  }

  lemma PatternsEnd(seed: nat, k: nat, current: nat, buf: seq<Byte>, size: nat)
    requires Chosen(seed, k, current, buf) == true && |Joined(seed, k)| + |buf| + 1 >= size - 1
    ensures size <= |Joined(seed, k + 1)| + 1
  {
  }

  /** The loop of `core_init_state`: as many patterns as fit. */
  method FillPatterns(size: nat, seed: nat, mem: array<Byte>) returns (total: nat, ghost k: nat)
    requires 1 <= size <= mem.Length && size <= 0xFFFF_FFF6 && seed < 0x1_0000
    modifies mem
    ensures total == |Joined(seed, k)| <= size - 1 && (total == 0 || total < size - 1) && size <= |Joined(seed, k + 1)| + 1
    ensures mem[..total] == Joined(seed, k) && Unchanged(mem, old(mem[..]), size) == true
  {
    ghost var before := mem[..];
    var limit := size - 1;
    var next, current, buf: seq<Byte> := 0, seed, [];
    total, k := 0, 0;
    while total + next + 1 < limit
      invariant total == |Joined(seed, k)| <= limit && (total == 0 || total < limit) && mem[..total] == Joined(seed, k)
      invariant next == |buf| && Chosen(seed, k, current, buf) == true
      invariant Unchanged(mem, before, size) == true
      decreases limit - total, next == 0
    {
      if next > 0 {
        Append(mem, total, buf, next, seed, k);
        total := total + next + 1;
        k := k + 1;
      }
      current := (current + 1) % 0x1_0000;
      buf, next := Choose(current);
      NextChosen(seed, k, current, buf);
    }
    PatternsEnd(seed, k, current, buf, size);
  }

  /** `core_init_state`: as many patterns as fit, then zeros, at least two if there is room for two. */
  method InitState(size: nat, seed: nat, mem: array<Byte>) returns (ghost k: nat)
    requires 1 <= size <= mem.Length && size <= 0xFFFF_FFF6 && seed < 0x1_0000
    modifies mem
    ensures |Joined(seed, k)| < size <= |Joined(seed, k + 1)| + 1 && (size >= 2 ==> |Joined(seed, k)| + 2 <= size)
    ensures mem[..size] == Joined(seed, k) + Zeros(size - |Joined(seed, k)|)
    ensures mem[size..] == old(mem[size..])
  {
    ghost var before := mem[..];
    var total;
    total, k := FillPatterns(size, seed, mem);
    total := FillZeros(mem, total, size);
    assert forall i :: 0 <= i < mem.Length - size ==> mem[size..][i] == before[size..][i];
  }

  ghost predicate Unchanged(mem: array<Byte>, before: seq<Byte>, n: nat)
    reads mem
  {
    |before| == mem.Length && forall i :: n <= i < mem.Length ==> mem[i] == before[i]
  }

  method Choose(seed: nat) returns (buf: seq<Byte>, next: nat)
    ensures buf == Pattern(seed) && next == |buf| > 0
  {
    var n := (seed / 8) % 4;
    match seed % 8
    case 0 => buf := Bytes(INTS[n]); next := 4;
    case 1 => buf := Bytes(INTS[n]); next := 4;
    case 2 => buf := Bytes(INTS[n]); next := 4;
    case 3 => buf := Bytes(FLOATS[n]); next := 8;
    case 4 => buf := Bytes(FLOATS[n]); next := 8;
    case 5 => buf := Bytes(SCIENTIFICS[n]); next := 8;
    case 6 => buf := Bytes(SCIENTIFICS[n]); next := 8;
    case _ => buf := Bytes(ERRORS[n]); next := 8;
  }

  /** One more pattern and its comma. */
  method Append(mem: array<Byte>, total: nat, buf: seq<Byte>, next: nat, ghost seed: nat, ghost k: nat)
    requires next == |buf| && total + next < mem.Length && mem[..total] == Joined(seed, k) && buf == Pattern(SeedAt(seed, k + 1))
    modifies mem
    ensures total + next + 1 == |Joined(seed, k + 1)| && mem[..total + next + 1] == Joined(seed, k + 1)
    ensures Unchanged(mem, old(mem[..]), total + next + 1)
  {
    ghost var before := mem[..];
    var i := 0;
    while i < next
      invariant i <= next && mem[..total + i] == Joined(seed, k) + buf[..i] && Unchanged(mem, before, total + i)
    {
      mem[total + i] := buf[i];
      i := i + 1;
    }
    mem[total + i] := COMMA;
    assert Joined(seed, k + 1) == Joined(seed, k) + buf + [COMMA];
  }

  method FillZeros(mem: array<Byte>, start: nat, size: nat) returns (total: nat)
    requires start <= size <= mem.Length
    modifies mem
    ensures mem[..size] == old(mem[..start]) + Zeros(size - start) && Unchanged(mem, old(mem[..]), size)
  {
    ghost var before := mem[..];
    total := start;
    while total < size
      invariant start <= total <= size && mem[..total] == before[..start] + Zeros(total - start) && Unchanged(mem, before, size)
    {
      mem[total] := NUL;
      total := total + 1;
    }
  }

  lemma NoNulInPattern(seed: nat)
    ensures forall i :: 0 <= i < |Pattern(seed)| ==> Pattern(seed)[i] != NUL
  {
  }

  lemma {:induction false} NoNulInText(seed: nat, k: nat)
    ensures forall i :: 0 <= i < |Joined(seed, k)| ==> Joined(seed, k)[i] != NUL
  {
    if k > 0 {
      NoNulInText(seed, k - 1);
      NoNulInPattern(SeedAt(seed, k));
    }
  }

  /** So the scan of a fresh block ends inside it, right after the last pattern. */
  lemma FreshBlockScans(s: seq<Byte>, size: nat, seed: nat, k: nat)
    requires |Joined(seed, k)| < size <= |s| && s[..size] == Joined(seed, k) + Zeros(size - |Joined(seed, k)|)
    ensures FirstNul(s, |Joined(seed, k)|)
  {
    NoNulInText(seed, k);
    assert forall i :: 0 <= i < size ==> s[i] == s[..size][i];
  }

  /**
   * `core_init_state`, then `core_bench_state` on the fresh block with a stride of two or more: both scans end inside
   * the block, at its first NUL, which is the one behind the patterns the first time.
   */
  method InitAndBench(size: nat, seed: nat, mem: array<Byte>, seed1: Byte, seed2: Byte, step: nat, crc0: Word)
    returns (crc: Word, ghost k: nat, ghost block: seq<Byte>, ghost z': nat)
    requires 2 <= size <= mem.Length && size <= 0xFFFF_FFF6 && seed < 0x1_0000 && step >= 2
    modifies mem
    ensures |Joined(seed, k)| + 2 <= size <= |Joined(seed, k + 1)| + 1
    ensures block == Joined(seed, k) + Zeros(size - |Joined(seed, k)|) + old(mem[size..])
    ensures FirstNul(block, |Joined(seed, k)|)
    ensures z' < size && FirstNul(Corrupted(block, size, 0, step, seed1), z')
    ensures mem[..] == Corrupted(Corrupted(block, size, 0, step, seed1), size, 0, step, seed2)
    ensures crc == BenchResult(block, |Joined(seed, k)|, Corrupted(block, size, 0, step, seed1), z', crc0)
  {
    k := InitState(size, seed, mem);
    block := mem[..];
    assert block == block[..size] + block[size..];
    FreshBlockScans(block, size, seed, k);
    EndsInNuls(block, size, seed, k);
    z' := TwoNulsKeepOne(block, size, step, seed1, size - 2);
    crc := Bench(mem, size, seed1, seed2, step, crc0, |Joined(seed, k)|, z');
  }

  lemma EndsInNuls(s: seq<Byte>, size: nat, seed: nat, k: nat)
    requires |Joined(seed, k)| + 2 <= size <= |s| && s[..size] == Joined(seed, k) + Zeros(size - |Joined(seed, k)|)
    ensures s[size - 2] == NUL && s[size - 1] == NUL
  {
    assert s[size - 2] == s[..size][size - 2] && s[size - 1] == s[..size][size - 1];
  }

  /** The characters of s from i to j are digits. */
  predicate DigitChars(s: string, i: nat, j: nat) { forall l :: i <= l < j && l < |s| ==> '0' <= s[l] <= '9' }

  /** The first i characters, one or none, are a sign. */
  predicate SignChars(s: string, i: nat) {
    i <= 1 && i < |s| && (i == 1 ==> s[0] == '+' || s[0] == '-') && s[i] != '+' && s[i] != '-' && s[i] < 128 as char
  }

  lemma DigitBytes(s: string, i: nat, j: nat)
    requires DigitChars(s, i, j) && i <= j <= |s|
    ensures Digits(Bytes(s)[i..j])
  {
    forall l | 0 <= l < j - i ensures IsDigit(Bytes(s)[i..j][l]) {
      assert '0' <= s[i + l] <= '9';
    }
  }

  lemma UnsignedBytes(s: string, i: nat)
    requires SignChars(s, i)
    ensures Unsigned(Bytes(s)) == Bytes(s)[i..]
  {
  }

  lemma IntText(s: string, i: nat)
    requires SignChars(s, i) && DigitChars(s, i, |s|)
    ensures StateOf(Bytes(s)) == Int
  {
    UnsignedBytes(s, i);
    DigitBytes(s, i, |s|);
    IntComplete(Bytes(s));
  }

  lemma FloatText(s: string, i: nat, k: nat)
    requires SignChars(s, i) && i <= k < |s| && s[k] == '.' && DigitChars(s, i, k) && DigitChars(s, k + 1, |s|)
    ensures PointAt(Unsigned(Bytes(s)), k - i) && StateOf(Bytes(s)) == Float
  {
    UnsignedBytes(s, i);
    DigitBytes(s, i, k);
    DigitBytes(s, k + 1, |s|);
    var u := Bytes(s)[i..];
    assert u[..k - i] == Bytes(s)[i..k] && u[k - i + 1..] == Bytes(s)[k + 1..|s|];
    FloatComplete(Bytes(s), k - i);
  }

  lemma FloatBegins(s: string, i: nat, k: nat, n: nat)
    requires SignChars(s, i) && i <= k < n <= |s| && s[k] == '.' && DigitChars(s, i, k) && DigitChars(s, k + 1, n)
    ensures StateOf(Bytes(s)[..n]) == Float
  {
    FloatText(s[..n], i, k);
    assert Bytes(s)[..n] == Bytes(s[..n]);
  }

  lemma ScientificText(s: string, i: nat, k: nat, n: nat)
    requires SignChars(s, i) && i <= k < n && n + 2 < |s| && s[k] == '.' && DigitChars(s, i, k) && DigitChars(s, k + 1, n)
    requires s[n] == 'e' && (s[n + 1] == '+' || s[n + 1] == '-') && DigitChars(s, n + 2, |s|)
    ensures StateOf(Bytes(s)) == Scientific
  {
    FloatBegins(s, i, k, n);
    DigitBytes(s, n + 2, |s|);
    ExponentText(Bytes(s), n);
  }

  lemma ExponentText(t: seq<Byte>, n: nat)
    requires n + 2 < |t| && StateOf(t[..n]) == Float && IsE(t[n]) && IsSign(t[n + 1]) && Digits(t[n + 2..|t|])
    ensures StateOf(t) == Scientific
  {
    Sound(t[..n]);
    assert t[n + 2..] == t[n + 2..|t|];
    ExponentComplete(t, n);
  }

  lemma IntPatterns(n: nat)
    requires n < 4
    ensures StateOf(Bytes(INTS[n])) == Int
  {
    IntText(INTS[n], if n < 2 then 0 else 1);
  }

  lemma FloatPatterns(n: nat)
    requires n < 4
    ensures StateOf(Bytes(FLOATS[n])) == Float
  {
    if n == 0 {
      FloatText(FLOATS[n], 0, 2);
    } else if n == 1 {
      FloatText(FLOATS[n], 0, 0);
    } else if n == 2 {
      FloatText(FLOATS[n], 1, 4);
    } else {
      FloatText(FLOATS[n], 1, 2);
    }
  }

  lemma ScientificPatterns(n: nat)
    requires n < 4 && n != 2
    ensures StateOf(Bytes(SCIENTIFICS[n])) == Scientific
  {
    if n == 0 {
      ScientificText(SCIENTIFICS[n], 0, 1, 5);
    } else if n == 1 {
      ScientificText(SCIENTIFICS[n], 1, 1, 5);
    } else {
      ScientificText(SCIENTIFICS[n], 1, 2, 4);
    }
  }

  lemma ReadOn(t: seq<Byte>, n: nat)
    requires n < |t|
    ensures StateOf(t[..n + 1]) == Delta(StateOf(t[..n]), t[n])
  {
    assert t[..n + 1][..n] == t[..n];
  }

  lemma Rejected(t: seq<Byte>, n: nat)
    requires n <= |t| && StateOf(t[..n]) == Invalid
    ensures StateOf(t) == Invalid
  {
    InvalidStays(t[..n], t[n..]);
    assert t == t[..n] + t[n..];
  }

  /** An integer has no exponent in this grammar, whatever follows. */
  lemma IntHasNoExponent(s: string, i: nat, n: nat)
    requires SignChars(s, i) && i < n < |s| && DigitChars(s, i, n) && s[n] == 'e'
    ensures StateOf(Bytes(s)) == Invalid
  {
    IntText(s[..n], i);
    assert Bytes(s)[..n] == Bytes(s[..n]);
    ReadOn(Bytes(s), n);
    Rejected(Bytes(s), n + 1);
  }

  lemma ExponentNeedsDigits(t: seq<Byte>, n: nat)
    requires n + 2 < |t| && StateOf(t[..n]) == Float && IsE(t[n]) && IsSign(t[n + 1]) && !IsDigit(t[n + 2])
    ensures StateOf(t) == Invalid
  {
    ReadOn(t, n);
    ReadOn(t, n + 1);
    ReadOn(t, n + 2);
    Rejected(t, n + 3);
  }

  lemma ErrorPatterns(n: nat)
    requires n < 4
    ensures StateOf(Bytes(ERRORS[n])) == Invalid
  {
    if n == 3 {
      FloatBegins(ERRORS[n], 0, 2, 4);
      ExponentNeedsDigits(Bytes(ERRORS[n]), 4);
    } else {
      var t := Bytes(ERRORS[n]);
      assert t[..0] == [];
      ReadOn(t, 0);
      ReadOn(t, 1);
      Rejected(t, if n == 0 then 1 else 2);
    }
  }

  lemma RejectedScientific()
    ensures StateOf(Bytes(SCIENTIFICS[2])) == Invalid
  {
    IntHasNoExponent(SCIENTIFICS[2], 1, 3);
  }

  /** What the recogniser makes of the n-th pattern of a kind. */
  lemma KindsAre(n: nat)
    requires n < 4
    ensures IsInt(Bytes(INTS[n])) && IsFloat(Bytes(FLOATS[n])) && Means(Invalid, Bytes(ERRORS[n]))
    ensures if n == 2 then Means(Invalid, Bytes(SCIENTIFICS[n])) else IsScientific(Bytes(SCIENTIFICS[n]))
  {
    IntPatterns(n);
    Decides(Int, Bytes(INTS[n]));
    FloatPatterns(n);
    Decides(Float, Bytes(FLOATS[n]));
    ErrorPatterns(n);
    Decides(Invalid, Bytes(ERRORS[n]));
    if n == 2 {
      RejectedScientific();
      Decides(Invalid, Bytes(SCIENTIFICS[n]));
    } else {
      ScientificPatterns(n);
      Decides(Scientific, Bytes(SCIENTIFICS[n]));
    }
  }

  /**
   * Bits 0 to 2 of the seed choose the kind of the pattern, bits 3 and 4 one of four of its kind: integers, numbers with
   * a point, numbers with an exponent, one of which the recogniser rejects, and other texts, which it rejects all.
   */
  lemma PatternIs(rest: nat, n: nat, kind: nat)
    requires n < 4 && kind < 8
    ensures var t := Pattern(32 * rest + 8 * n + kind);
            && (kind < 3 ==> t == Bytes(INTS[n]) && IsInt(t))
            && (3 <= kind < 5 ==> t == Bytes(FLOATS[n]) && IsFloat(t))
            && (5 <= kind < 7 ==> t == Bytes(SCIENTIFICS[n]) && if n == 2 then Means(Invalid, t) else IsScientific(t))
            && (kind == 7 ==> t == Bytes(ERRORS[n]) && Means(Invalid, t))
  {
    PatternText(32 * rest + 8 * n + kind, n, kind);
    KindsAre(n);
  }

  lemma PatternText(seed: nat, n: nat, kind: nat)
    requires n < 4 && kind == seed % 8 && n == seed / 8 % 4
    ensures Pattern(seed)
         == Bytes(if kind < 3 then INTS[n] else if kind < 5 then FLOATS[n] else if kind < 7 then SCIENTIFICS[n] else ERRORS[n])
  {
  }
}
