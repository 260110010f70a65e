/** Bitwise operators on unsigned machine words, read as natural numbers. */
module Bits {
  import opened Arith

  function And(a: nat, b: nat): nat
  {
    if a == 0 || b == 0 then 0 else 2 * And(a / 2, b / 2) + (if a % 2 == 1 && b % 2 == 1 then 1 else 0)
  }

  function Or(a: nat, b: nat): nat
    decreases a + b
  {
    if a == 0 && b == 0 then 0
    else 2 * Or(a / 2, b / 2) + (if a % 2 == 1 || b % 2 == 1 then 1 else 0)
  }

  function Xor(a: nat, b: nat): nat
    decreases a + b
  {
    if a == 0 && b == 0 then 0
    else 2 * Xor(a / 2, b / 2) + (if a % 2 != b % 2 then 1 else 0)
  }

  lemma {:induction false} XorCancels(a: nat, b: nat)
    ensures Xor(a, Xor(a, b)) == b
    decreases a + b
  {
    if a != 0 || b != 0 {
      XorCancels(a / 2, b / 2);
      assert Xor(a, b) / 2 == Xor(a / 2, b / 2);
    }
  }

  lemma {:induction false} XorCommutes(a: nat, b: nat)
    ensures Xor(a, b) == Xor(b, a)
    decreases a + b
  {
    if a != 0 || b != 0 {
      XorCommutes(a / 2, b / 2);
    }
  }

  lemma {:induction false} XorZero(a: nat)
    ensures Xor(a, 0) == a
  {
    if a != 0 {
      XorZero(a / 2);
    }
  }

  lemma {:induction false} XorBound(a: nat, b: nat, n: nat)
    requires a < Pow2(n) && b < Pow2(n)
    ensures Xor(a, b) < Pow2(n)
    decreases a + b
  {
    if a != 0 || b != 0 {
      XorBound(a / 2, b / 2, n - 1);
    }
  }

  /** A mask of n ones keeps the low n bits. */
  lemma {:induction false} AndLowMask(a: nat, n: nat)
    ensures And(a, Pow2(n) - 1) == a % Pow2(n)
  {
    if a == 0 || n == 0 {
    } else {
      AndLowMask(a / 2, n - 1);
      var m := Pow2(n - 1);
      assert (Pow2(n) - 1) / 2 == m - 1 && (Pow2(n) - 1) % 2 == 1 by {
        DivModUnique(2 * m - 1, 2, m - 1, 1);
      }
      HalfMod(a, m);
    }
  }

  lemma HalfMod(a: nat, m: nat)
    requires m > 0
    ensures a % (2 * m) == 2 * ((a / 2) % m) + a % 2
  {
    var h := a / 2;
    var q, r := h / m, h % m;
    assert h == q * m + r;
    assert a == q * (2 * m) + (2 * r + a % 2);
    DivModUnique(a, 2 * m, q, 2 * r + a % 2);
  }

  lemma {:induction false} AndCommutes(a: nat, b: nat)
    ensures And(a, b) == And(b, a)
  {
    if a != 0 && b != 0 {
      AndCommutes(a / 2, b / 2);
    }
  }

  lemma {:induction false} AndBound(a: nat, b: nat)
    ensures And(a, b) <= a
  {
    if a != 0 && b != 0 {
      AndBound(a / 2, b / 2);
    }
  }

  lemma AndAllOnes(a: nat, n: nat)
    requires a < Pow2(n)
    ensures And(Pow2(n) - 1, a) == a
  {
    AndCommutes(Pow2(n) - 1, a);
    AndLowMask(a, n);
    ModSmall(a, Pow2(n));
  }

  lemma {:induction false} OrBound(a: nat, b: nat, n: nat)
    requires a < Pow2(n) && b < Pow2(n)
    ensures Or(a, b) < Pow2(n)
    decreases a + b
  {
    if a != 0 || b != 0 {
      OrBound(a / 2, b / 2, n - 1);
    }
  }

  /** The high and the low part of a mask act separately. */
  lemma {:induction false} AndSplit(xh: nat, xl: nat, yh: nat, yl: nat, k: nat)
    requires xl < Pow2(k) && yl < Pow2(k)
    ensures And(xh * Pow2(k) + xl, yh * Pow2(k) + yl) == And(xh, yh) * Pow2(k) + And(xl, yl)
  {
    AndHalves(0, 0);
    hide And;
    if k == 0 {
      assert xl == 0 && yl == 0;
    } else {
      AndSplit(xh, xl / 2, yh, yl / 2, k - 1);
      AndSplitStep(xh, xl, yh, yl, Pow2(k - 1), Pow2(k));
    }
  }

  lemma AndSplitStep(xh: nat, xl: nat, yh: nat, yl: nat, m: nat, w: nat)
    requires w == 2 * m && And(xh * m + xl / 2, yh * m + yl / 2) == And(xh, yh) * m + And(xl / 2, yl / 2)
    ensures And(xh * w + xl, yh * w + yl) == And(xh, yh) * w + And(xl, yl)
  {
    hide And;
    Halve(xh, xl, m);
    Halve(yh, yl, m);
    JoinHalves(xh * (2 * m) + xl, yh * (2 * m) + yl, xl, yl, And(xh, yh) * m);
    TwiceProduct(And(xh, yh), m);
  }

  lemma TwiceProduct(a: int, m: int)
    ensures a * (2 * m) == 2 * (a * m)
  {
  }

  lemma JoinHalves(x: nat, y: nat, xl: nat, yl: nat, p: int)
    requires x % 2 == xl % 2 && y % 2 == yl % 2
    requires And(x / 2, y / 2) == p + And(xl / 2, yl / 2)
    ensures And(x, y) == 2 * p + And(xl, yl)
  {
    AndHalves(x, y);
    AndHalves(xl, yl);
  }

  lemma Halve(h: nat, l: nat, m: nat)
    ensures h * (2 * m) + l >= 0
    ensures (h * (2 * m) + l) / 2 == h * m + l / 2 && (h * (2 * m) + l) % 2 == l % 2
  {
    assert h * (2 * m) == 2 * (h * m);
  }

  lemma AndHalves(a: nat, b: nat)
    ensures And(a, b) == 2 * And(a / 2, b / 2) + (if a % 2 == 1 && b % 2 == 1 then 1 else 0)
  {
  }

  /** Or of words that share no bit position is their sum. */
  lemma {:induction false} OrDisjoint(a: nat, b: nat, n: nat)
    requires a < Pow2(n)
    ensures Or(a, b * Pow2(n)) == a + b * Pow2(n)
  {
    if n == 0 {
      OrZero(b);
    } else {
      var m := Pow2(n - 1);
      assert b * Pow2(n) == 2 * (b * m);
      OrDisjoint(a / 2, b, n - 1);
    }
  }

  lemma {:induction false} OrZero(b: nat)
    ensures Or(0, b) == b
  {
    if b != 0 {
      OrZero(b / 2);
    }
  }

  lemma {:induction false} OrIsZero(a: nat, b: nat)
    ensures Or(a, b) == 0 <==> a == 0 && b == 0
    decreases a + b
  {
    if a != 0 || b != 0 {
      OrIsZero(a / 2, b / 2);
    }
  }

  lemma XorIsZero(a: nat, b: nat)
    ensures Xor(a, b) == 0 <==> a == b
  {
    XorCancels(a, b);
    XorZero(a);
    XorSelf(a);
  }

  lemma {:induction false} XorSelf(a: nat)
    ensures Xor(a, a) == 0
  {
    if a != 0 {
      XorSelf(a / 2);
    }
  }
}
