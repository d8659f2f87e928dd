/** The numerals that CoreMark's state machine tells apart, as a grammar and as an automaton. */
module Numerals {
  import opened Words

  const NUL: Byte := 0
  const PLUS: Byte := 43
  const COMMA: Byte := 44
  const MINUS: Byte := 45
  const POINT: Byte := 46
  const ZERO: Byte := 48
  const NINE: Byte := 57
  const UPPER_E: Byte := 69
  const LOWER_E: Byte := 101

  predicate IsDigit(c: Byte) { ZERO <= c <= NINE }

  predicate IsSign(c: Byte) { c == PLUS || c == MINUS }

  predicate IsE(c: Byte) { c == LOWER_E || c == UPPER_E }

  datatype CoreState = Start | Invalid | S1 | Int | S2 | Float | Exponent | Scientific

  // ----- the automaton -----

  function Delta(state: CoreState, c: Byte): CoreState {
    match state
    case Start => if IsDigit(c) then Int else if IsSign(c) then S1 else if c == POINT then Float else Invalid
    case S1 => if IsDigit(c) then Int else if c == POINT then Float else Invalid
    case Int => if c == POINT then Float else if IsDigit(c) then Int else Invalid
    case Float => if IsE(c) then S2 else if IsDigit(c) then Float else Invalid
    case S2 => if IsSign(c) then Exponent else Invalid
    case Exponent => if IsDigit(c) then Scientific else Invalid
    case Scientific => if IsDigit(c) then Scientific else Invalid
    case Invalid => Invalid
  }

  /** The state after a text. */
  function StateOf(t: seq<Byte>): CoreState {
    if t == [] then Start else Delta(StateOf(t[..|t| - 1]), t[|t| - 1])
  }

  // ----- the grammar -----

  predicate Digits(t: seq<Byte>) { forall i :: 0 <= i < |t| ==> IsDigit(t[i]) }

  /** The text without its sign. */
  function Unsigned(t: seq<Byte>): seq<Byte> {
    if t != [] && IsSign(t[0]) then t[1..] else t
  }

  /** [+-]?D+ */
  predicate IsInt(t: seq<Byte>) { Unsigned(t) != [] && Digits(Unsigned(t)) }

  /** D*.D* with the point at k */
  predicate PointAt(u: seq<Byte>, k: nat) { k < |u| && u[k] == POINT && Digits(u[..k]) && Digits(u[k + 1..]) }

  /** [+-]?D*.D* */
  ghost predicate IsFloat(t: seq<Byte>) { exists k: nat :: PointAt(Unsigned(t), k) }

  /** A float up to k, then [eE][+-]D* */
  ghost predicate ExponentAt(t: seq<Byte>, k: nat) {
    k + 2 <= |t| && IsFloat(t[..k]) && IsE(t[k]) && IsSign(t[k + 1]) && Digits(t[k + 2..])
  }

  /** A float followed by [eE][+-]D+ */
  ghost predicate IsScientific(t: seq<Byte>) { exists k: nat :: ExponentAt(t, k) && k + 2 < |t| }

  /** The texts that each state but Invalid stands for. */
  ghost predicate Shape(state: CoreState, t: seq<Byte>) {
    match state
    case Start => t == []
    case S1 => |t| == 1 && IsSign(t[0])
    case Int => IsInt(t)
    case Float => IsFloat(t)
    case S2 => t != [] && IsFloat(t[..|t| - 1]) && IsE(t[|t| - 1])
    case Exponent => exists k: nat :: ExponentAt(t, k) && k + 2 == |t|
    case Scientific => IsScientific(t)
    case Invalid => false
  }

  /** Invalid stands for all the others. */
  ghost predicate Means(state: CoreState, t: seq<Byte>) {
    if state == Invalid then forall q: CoreState :: !Shape(q, t) else Shape(state, t)
  }

  // ----- the automaton stays within the grammar -----

  lemma StepSound(q: CoreState, t: seq<Byte>, c: Byte)
    requires Shape(q, t) && Delta(q, c) != Invalid
    ensures Shape(Delta(q, c), t + [c])
  {
    match q
    case Start => FromNothing(t, c);
    case S1 => FromSign(t, c);
    case Int => FromInt(t, c);
    case Float => FromFloat(t, c);
    case S2 => FromS2(t, c);
    case Exponent => FromExponent(t, c);
    case Scientific => FromExponent(t, c);
  }

  lemma FromNothing(t: seq<Byte>, c: Byte)
    requires t == [] && Delta(Start, c) != Invalid
    ensures Shape(Delta(Start, c), t + [c])
  {
    assert t + [c] == [c];
    if c == POINT {
      assert PointAt(Unsigned([c]), 0);
    }
  }

  lemma FromSign(t: seq<Byte>, c: Byte)
    requires |t| == 1 && IsSign(t[0]) && Delta(S1, c) != Invalid
    ensures Shape(Delta(S1, c), t + [c])
  {
    assert Unsigned(t + [c]) == [c];
    if c == POINT {
      assert PointAt(Unsigned(t + [c]), 0);
    }
  }

  lemma UnsignedSnoc(t: seq<Byte>, c: Byte)
    requires t != []
    ensures Unsigned(t + [c]) == Unsigned(t) + [c]
  {
  }

  lemma FromInt(t: seq<Byte>, c: Byte)
    requires IsInt(t) && Delta(Int, c) != Invalid
    ensures Shape(Delta(Int, c), t + [c])
  {
    UnsignedSnoc(t, c);
    var u := Unsigned(t);
    if c == POINT {
      assert (u + [c])[..|u|] == u && (u + [c])[|u| + 1..] == [];
      assert PointAt(Unsigned(t + [c]), |u|);
    }
  }

  lemma FromFloat(t: seq<Byte>, c: Byte)
    requires IsFloat(t) && Delta(Float, c) != Invalid
    ensures Shape(Delta(Float, c), t + [c])
  {
    UnsignedSnoc(t, c);
    var u := Unsigned(t);
    assert (t + [c])[..|t|] == t;
    if !IsE(c) {
      var k: nat :| PointAt(u, k);
      assert (u + [c])[..k] == u[..k] && (u + [c])[k + 1..] == u[k + 1..] + [c];
      assert PointAt(Unsigned(t + [c]), k);
    }
  }

  lemma FromS2(t: seq<Byte>, c: Byte)
    requires Shape(S2, t) && IsSign(c)
    ensures Shape(Exponent, t + [c])
  {
    var k := |t| - 1;
    assert (t + [c])[..k] == t[..k];
    assert ExponentAt(t + [c], k);
  }

  lemma FromExponent(t: seq<Byte>, c: Byte)
    requires Shape(Exponent, t) || Shape(Scientific, t)
    requires IsDigit(c)
    ensures Shape(Scientific, t + [c])
  {
    var k: nat :| ExponentAt(t, k);
    assert (t + [c])[..k] == t[..k] && (t + [c])[k + 2..] == t[k + 2..] + [c];
    assert ExponentAt(t + [c], k);
  }

  lemma {:induction false} Sound(t: seq<Byte>)
    requires StateOf(t) != Invalid
    ensures Shape(StateOf(t), t)
  {
    if t != [] {
      var n := |t| - 1;
      Sound(t[..n]);
      StepSound(StateOf(t[..n]), t[..n], t[n]);
      assert t == t[..n] + [t[n]];
    }
  }

  // ----- and accepts all of it -----

  lemma {:induction false} IntComplete(t: seq<Byte>)
    requires IsInt(t)
    ensures StateOf(t) == Int
  {
    var n := |t| - 1;
    var before := t[..n];
    assert t == before + [t[n]];
    if |Unsigned(t)| == 1 {
      ShortState(before);
    } else {
      UnsignedSnoc(before, t[n]);
      IntComplete(before);
    }
  }

  /** Before the first digit or point there is nothing or a sign. */
  lemma ShortState(t: seq<Byte>)
    requires t == [] || (|t| == 1 && IsSign(t[0]))
    ensures StateOf(t) == if t == [] then Start else S1
  {
    if t != [] {
      assert t[..0] == [];
    }
  }

  lemma {:induction false} FloatComplete(t: seq<Byte>, k: nat)
    requires PointAt(Unsigned(t), k)
    ensures StateOf(t) == Float
  {
    var n := |t| - 1;
    var before := t[..n];
    assert t == before + [t[n]];
    if before == [] {
    } else {
      UnsignedSnoc(before, t[n]);
      var u := Unsigned(before);
      if k < |u| {
        PointEarlier(u, t[n], k);
        FloatComplete(before, k);
      } else if u == [] {
        assert |before| == 1 && before[..0] == [] && Unsigned(t) == [t[n]];
        assert StateOf(before) == S1;
      } else {
        assert Unsigned(t)[..k] == u;
        IntComplete(before);
      }
    }
  }

  lemma PointEarlier(u: seq<Byte>, c: Byte, k: nat)
    requires PointAt(u + [c], k) && k < |u|
    ensures PointAt(u, k) && IsDigit(c)
  {
    assert (u + [c])[..k] == u[..k];
    var rest := (u + [c])[k + 1..];
    assert rest == u[k + 1..] + [c];
    DigitsEarlier(u[k + 1..], c);
  }

  lemma DigitsEarlier(t: seq<Byte>, c: Byte)
    requires Digits(t + [c])
    ensures Digits(t) && IsDigit(c)
  {
    forall i | 0 <= i < |t| ensures IsDigit(t[i]) {
      assert (t + [c])[i] == t[i];
    }
    assert (t + [c])[|t|] == c;
  }

  lemma {:induction false} ExponentComplete(t: seq<Byte>, k: nat)
    requires ExponentAt(t, k)
    ensures StateOf(t) == if k + 2 == |t| then Exponent else Scientific
  {
    var n := |t| - 1;
    var before := t[..n];
    assert t == before + [t[n]];
    if k + 2 == |t| {
      var p: nat :| PointAt(Unsigned(t[..k]), p);
      FloatComplete(t[..k], p);
      assert before[..k] == t[..k];
    } else {
      assert before[..k] == t[..k] && t[k + 2..] == before[k + 2..] + [t[n]];
      ExponentComplete(before, k);
    }
  }

  lemma Complete(q: CoreState, t: seq<Byte>)
    requires Shape(q, t)
    ensures StateOf(t) == q
  {
    match q
    case Start =>
    case S1 => assert t[..0] == [];
    case Int => IntComplete(t);
    case Float => var k: nat :| PointAt(Unsigned(t), k); FloatComplete(t, k);
    case S2 => var k: nat :| PointAt(Unsigned(t[..|t| - 1]), k); FloatComplete(t[..|t| - 1], k);
    case Exponent => var k: nat :| ExponentAt(t, k) && k + 2 == |t|; ExponentComplete(t, k);
    case Scientific => var k: nat :| ExponentAt(t, k) && k + 2 < |t|; ExponentComplete(t, k);
  }

  /** The automaton decides the grammar, all eight states of it. */
  lemma Decides(q: CoreState, t: seq<Byte>)
    ensures StateOf(t) == q <==> Means(q, t)
  {
    if StateOf(t) != Invalid {
      Sound(t);
    }
    forall p: CoreState | Shape(p, t) ensures StateOf(t) == p {
      Complete(p, t);
    }
  }

  /** Once invalid, always invalid. */
  lemma {:induction false} InvalidStays(t: seq<Byte>, u: seq<Byte>)
    requires StateOf(t) == Invalid
    ensures StateOf(t + u) == Invalid
    decreases |u|
  {
    if u == [] {
      assert t + u == t;
    } else {
      var n := |u| - 1;
      InvalidStays(t, u[..n]);
      assert (t + u)[..|t + u| - 1] == t + u[..n];
    }
  }
}
