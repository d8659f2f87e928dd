/** Bitwise operations on natural numbers of any width. */
module Bits {

  function Pow2(n: nat): (p: nat)
    ensures p > 0
  {
    if n == 0 then 1 else 2 * Pow2(n - 1)
  }

  function Xor(a: nat, b: nat): nat
    decreases a + b
  {
    if a == 0 && b == 0 then 0
    else (if a % 2 == b % 2 then 0 else 1) + 2 * Xor(a / 2, b / 2)
  }

  function And(a: nat, b: nat): nat {
    if a == 0 then 0
    else (if a % 2 == 1 && b % 2 == 1 then 1 else 0) + 2 * And(a / 2, b / 2)
  }

  function Or(a: nat, b: nat): nat
    decreases a + b
  {
    if a == 0 && b == 0 then 0
    else (if a % 2 == 1 || b % 2 == 1 then 1 else 0) + 2 * Or(a / 2, b / 2)
  }

  /** Bit i of a number, the lowest one being bit 0. */
  predicate IsSet(x: nat, i: nat) {
    if i == 0 then x % 2 == 1 else IsSet(x / 2, i - 1)
  }

  lemma {:induction false} Pow2Grows(m: nat, n: nat)
    requires m <= n
    ensures Pow2(m) <= Pow2(n)
  {
    if m < n {
      Pow2Grows(m, n - 1);
    }
  }

  // ----- exclusive or -----

  lemma XorStep(a: nat, b: nat)
    ensures Xor(a, b) / 2 == Xor(a / 2, b / 2)
    ensures Xor(a, b) % 2 == if a % 2 == b % 2 then 0 else 1
  {
  }

  lemma {:induction false} XorZero(a: nat)
    ensures Xor(a, 0) == a && Xor(0, a) == a && Xor(a, a) == 0
  {
    if a > 0 {
      XorZero(a / 2);
    }
  }

  lemma {:induction false} XorComm(a: nat, b: nat)
    ensures Xor(a, b) == Xor(b, a)
    decreases a + b
  {
    if a + b > 0 {
      XorComm(a / 2, b / 2);
    }
  }

  lemma {:induction false} XorAssoc(a: nat, b: nat, c: nat)
    ensures Xor(Xor(a, b), c) == Xor(a, Xor(b, c))
    decreases a + b + c
  {
    if a + b + c > 0 {
      XorAssoc(a / 2, b / 2, c / 2);
      XorStep(a, b);
      XorStep(b, c);
      XorStep(Xor(a, b), c);
      XorStep(a, Xor(b, c));
    }
  }

  lemma XorCancel(a: nat, b: nat, c: nat)
    requires Xor(a, c) == Xor(b, c)
    ensures a == b
  {
    XorAssoc(a, c, c);
    XorAssoc(b, c, c);
    XorZero(c);
    XorZero(a);
    XorZero(b);
  }

  lemma {:induction false} XorBound(a: nat, b: nat, n: nat)
    requires a < Pow2(n) && b < Pow2(n)
    ensures Xor(a, b) < Pow2(n)
  {
    if n > 0 {
      XorBound(a / 2, b / 2, n - 1);
      XorStep(a, b);
    }
  }

  /** A bit above both operands passes through. */
  lemma {:induction false} XorTop(a: nat, b: nat, n: nat)
    requires a < Pow2(n) && b < Pow2(n)
    ensures Xor(a, b + Pow2(n)) == Xor(a, b) + Pow2(n)
  {
    if n == 0 {
      assert Xor(0, 1) == 1 + 2 * Xor(0, 0);
    } else {
      XorTop(a / 2, b / 2, n - 1);
      assert (b + Pow2(n)) / 2 == b / 2 + Pow2(n - 1);
    }
  }

  // ----- masks and joins -----

  lemma AndOrStep(a: nat, b: nat)
    ensures And(a, b) == (if a % 2 == 1 && b % 2 == 1 then 1 else 0) + 2 * And(a / 2, b / 2)
    ensures Or(a, b) == (if a % 2 == 1 || b % 2 == 1 then 1 else 0) + 2 * Or(a / 2, b / 2)
  {
  }

  lemma AndOdd(a: nat, k: nat)
    requires k > 0
    ensures And(a, 2 * k - 1) == a % 2 + 2 * And(a / 2, k - 1)
  {
    assert (2 * k - 1) / 2 == k - 1 && (2 * k - 1) % 2 == 1;
    AndOrStep(a, 2 * k - 1);
  }

  /** Masking with n ones keeps the n low bits. */
  lemma {:induction false} AndMask(a: nat, n: nat)
    ensures And(a, Pow2(n) - 1) == a % Pow2(n)
  {
    if n == 0 {
      AndZero(a);
    } else {
      AndMask(a / 2, n - 1);
      AndOdd(a, Pow2(n - 1));
      ModHalves(a, Pow2(n - 1));
    }
  }

  lemma {:induction false} AndZero(a: nat)
    ensures And(a, 0) == 0
  {
    if a > 0 {
      AndZero(a / 2);
    }
  }

  lemma ModHalves(a: nat, m: nat)
    requires m > 0
    ensures a % (2 * m) == a % 2 + 2 * ((a / 2) % m)
  {
    var q, r := (a / 2) / m, (a / 2) % m;
    assert a / 2 == q * m + r;
    assert a == q * (2 * m) + (a % 2 + 2 * r);
    DivModUnique(a, 2 * m, q, a % 2 + 2 * r);
  }

  lemma DivModUnique(a: int, m: int, q: int, r: int)
    requires 0 <= r < m && a == q * m + r
    ensures a / m == q && a % m == r
  {
    MultipleInside(a / m - q, m, r - a % m);
  }

  lemma MultipleInside(e: int, m: int, d: int)
    requires e * m == d && -m < d < m
    ensures e == 0
  {
    if e >= 1 {
      MulGrows(e, m);
    } else if e <= -1 {
      MulGrows(-e, m);
    }
  }

  lemma MulGrows(e: int, m: int)
    requires e >= 1 && m >= 0
    ensures e * m >= m
  {
  }

  /** Joining a shifted word to a short one puts them side by side. */
  lemma {:induction false} OrShifted(a: nat, b: nat, n: nat)
    requires a < Pow2(n)
    ensures Or(a, b * Pow2(n)) == a + b * Pow2(n)
  {
    if n == 0 {
      OrZero(b);
    } else {
      var c := b * Pow2(n - 1);
      assert b * Pow2(n) == 2 * c;
      OrShifted(a / 2, b, n - 1);
      AndOrStep(a, 2 * c);
      assert (2 * c) / 2 == c;
    }
  }

  /** Setting, and masking away, a bit just above a short word. */
  lemma TopBit(y: nat, n: nat, p: nat)
    requires p == Pow2(n) && y < p
    ensures Or(y, p) == y + p && And(y, p - 1) == y
  {
    OrShifted(y, 1, n);
    AndMask(y, n);
    SmallMod(y, p);
  }

  lemma SmallMod(y: nat, p: nat)
    requires y < p
    ensures y % p == y
  {
  }

  lemma {:induction false} OrZero(a: nat)
    ensures Or(0, a) == a
  {
    if a > 0 {
      OrZero(a / 2);
    }
  }

  /** Two words side by side determine both. */
  lemma SplitUnique(a: nat, b: nat, a': nat, b': nat, n: nat)
    requires a < Pow2(n) && a' < Pow2(n)
    requires a + b * Pow2(n) == a' + b' * Pow2(n)
    ensures a == a' && b == b'
  {
    DivModUnique(a + b * Pow2(n), Pow2(n), b, a);
    DivModUnique(a' + b' * Pow2(n), Pow2(n), b', a');
  }

  // ----- bit by bit -----

  lemma {:induction false} XorAt(a: nat, b: nat, i: nat)
    ensures IsSet(Xor(a, b), i) <==> IsSet(a, i) != IsSet(b, i)
  {
    XorStep(a, b);
    if i > 0 {
      XorAt(a / 2, b / 2, i - 1);
    }
  }

  lemma {:induction false} AndAt(a: nat, b: nat, i: nat)
    ensures IsSet(And(a, b), i) <==> IsSet(a, i) && IsSet(b, i)
  {
    AndOrStep(a, b);
    if i > 0 {
      AndAt(a / 2, b / 2, i - 1);
    }
  }

  lemma {:induction false} OrAt(a: nat, b: nat, i: nat)
    ensures IsSet(Or(a, b), i) <==> IsSet(a, i) || IsSet(b, i)
  {
    AndOrStep(a, b);
    if i > 0 {
      OrAt(a / 2, b / 2, i - 1);
    }
  }

  /** One less than a power of two is all ones. */
  lemma {:induction false} OnesAt(n: nat, i: nat)
    ensures IsSet(Pow2(n) - 1, i) <==> i < n
  {
    if n == 0 {
      ZeroAt(i);
    } else {
      assert (Pow2(n) - 1) / 2 == Pow2(n - 1) - 1 && (Pow2(n) - 1) % 2 == 1;
      if i > 0 {
        OnesAt(n - 1, i - 1);
      }
    }
  }

  lemma {:induction false} ZeroAt(i: nat)
    ensures !IsSet(0, i)
  {
    if i > 0 {
      ZeroAt(i - 1);
    }
  }

  /** A shift to the left moves each bit up. */
  lemma {:induction false} ShiftedAt(b: nat, n: nat, i: nat)
    ensures IsSet(b * Pow2(n), i) <==> i >= n && IsSet(b, i - n)
  {
    if n > 0 {
      var c := b * Pow2(n - 1);
      assert b * Pow2(n) == 2 * c;
      if i > 0 {
        ShiftedAt(b, n - 1, i - 1);
      }
    }
  }

  /** A shift to the right moves each bit down. */
  lemma {:induction false} DividedAt(x: nat, n: nat, i: nat, q: nat)
    requires q == x / Pow2(n)
    ensures IsSet(q, i) <==> IsSet(x, i + n)
  {
    if n > 0 {
      DivByDouble(x, Pow2(n - 1));
      DividedAt(x / 2, n - 1, i, q);
    }
  }

  /** The bits are those of division by powers of two. */
  lemma {:induction false} BitIs(x: nat, i: nat)
    ensures IsSet(x, i) <==> x / Pow2(i) % 2 == 1
  {
    if i > 0 {
      BitIs(x / 2, i - 1);
      DivByDouble(x, Pow2(i - 1));
    }
  }

  lemma DivByDouble(x: nat, m: nat)
    requires m > 0
    ensures x / (2 * m) == x / 2 / m
  {
    var q, r := x / 2 / m, x / 2 % m;
    assert x / 2 == q * m + r;
    assert x == q * (2 * m) + (x % 2 + 2 * r);
    DivModUnique(x, 2 * m, q, x % 2 + 2 * r);
  }

  /** The remainder by a power of two has the low bits. */
  lemma ModAt(x: nat, n: nat, i: nat)
    ensures IsSet(x % Pow2(n), i) <==> i < n && IsSet(x, i)
  {
    AndMask(x, n);
    AndAt(x, Pow2(n) - 1, i);
    OnesAt(n, i);
  }

  /** Two words side by side: the bits of the low one, then those of the high one. */
  lemma JoinedAt(a: nat, b: nat, n: nat, i: nat)
    requires a < Pow2(n)
    ensures IsSet(a + b * Pow2(n), i) <==> if i < n then IsSet(a, i) else IsSet(b, i - n)
  {
    OrShifted(a, b, n);
    OrAt(a, b * Pow2(n), i);
    ShiftedAt(b, n, i);
    SmallMod(a, Pow2(n));
    ModAt(a, n, i);
  }

  /** Numbers with the same bits are the same. */
  lemma {:induction false} SameBits(a: nat, b: nat)
    requires forall i: nat :: IsSet(a, i) == IsSet(b, i)
    ensures a == b
    decreases a + b
  {
    if a + b > 0 {
      assert IsSet(a, 0) == IsSet(b, 0);
      forall i: nat ensures IsSet(a / 2, i) == IsSet(b / 2, i) {
        assert IsSet(a, i + 1) == IsSet(b, i + 1);
      }
      SameBits(a / 2, b / 2);
    }
  }
}
